/** The egress codec (pkg/binary/egress.go): a growing buffer of 20-byte records and its parser. */
module Egress {
  import opened Words

  const RECORD_SIZE: nat := 20
  const MIN_CAPACITY: nat := 4096

  /** An egress record; lat and lng are the bit patterns of two doubles, NaNs included. */
  datatype Record = Record(entityId: UInt32, lat: UInt64, lng: UInt64)

  datatype Decoded = Ok(records: seq<Record>) | WrongSize

  // ----- little-endian words -----

  function Pow256(k: nat): nat {
    if k == 0 then 1 else 256 * Pow256(k - 1)
  }

  function LittleEndian(v: nat, k: nat): (bytes: seq<UInt8>)
    ensures |bytes| == k
  {
    if k == 0 then [] else [v % 256] + LittleEndian(v / 256, k - 1)
  }

  function FromLittleEndian(bytes: seq<UInt8>): nat {
    if bytes == [] then 0 else bytes[0] + 256 * FromLittleEndian(bytes[1..])
  }

  lemma {:induction false} WordRoundTrip(v: nat, k: nat)
    requires v < Pow256(k)
    ensures FromLittleEndian(LittleEndian(v, k)) == v
  {
    if k == 0 {
    } else {
      assert v / 256 < Pow256(k - 1);
      WordRoundTrip(v / 256, k - 1);
    }
  }

  lemma LowByte(b: UInt8, rest: nat)
    ensures (b + 256 * rest) % 256 == b && (b + 256 * rest) / 256 == rest
  {
  }

  lemma {:induction false} BytesRoundTrip(bytes: seq<UInt8>)
    ensures FromLittleEndian(bytes) < Pow256(|bytes|)
    ensures LittleEndian(FromLittleEndian(bytes), |bytes|) == bytes
  {
    if bytes == [] {
    } else {
      BytesRoundTrip(bytes[1..]);
      LowByte(bytes[0], FromLittleEndian(bytes[1..]));
    }
  }

  lemma WordSizes()
    ensures Pow256(4) == TWO32 && Pow256(8) == TWO64
  {
  }

  function ReadUInt32(bytes: seq<UInt8>): UInt32
    requires |bytes| == 4
  {
    BytesRoundTrip(bytes); WordSizes();
    FromLittleEndian(bytes)
  }

  function ReadUInt64(bytes: seq<UInt8>): UInt64
    requires |bytes| == 8
  {
    BytesRoundTrip(bytes); WordSizes();
    FromLittleEndian(bytes)
  }

  // ----- records and frames -----

  function EncodeRecord(r: Record): (bytes: seq<UInt8>)
    ensures |bytes| == RECORD_SIZE
  {
    LittleEndian(r.entityId, 4) + LittleEndian(r.lat, 8) + LittleEndian(r.lng, 8)
  }

  function DecodeRecord(bytes: seq<UInt8>): Record
    requires |bytes| == RECORD_SIZE
  {
    Record(ReadUInt32(bytes[..4]), ReadUInt64(bytes[4..12]), ReadUInt64(bytes[12..]))
  }

  lemma RecordRoundTrip(r: Record)
    ensures DecodeRecord(EncodeRecord(r)) == r
  {
    WordSizes();
    var bytes := EncodeRecord(r);
    assert bytes[..4] == LittleEndian(r.entityId, 4);
    assert bytes[4..12] == LittleEndian(r.lat, 8);
    assert bytes[12..] == LittleEndian(r.lng, 8);
    WordRoundTrip(r.entityId, 4);
    WordRoundTrip(r.lat, 8);
    WordRoundTrip(r.lng, 8);
  }

  lemma RecordBytesRoundTrip(bytes: seq<UInt8>)
    requires |bytes| == RECORD_SIZE
    ensures EncodeRecord(DecodeRecord(bytes)) == bytes
  {
    BytesRoundTrip(bytes[..4]);
    BytesRoundTrip(bytes[4..12]);
    BytesRoundTrip(bytes[12..]);
    assert bytes == bytes[..4] + bytes[4..12] + bytes[12..];
  }

  /** The bytes that a sequence of appends leaves in an empty buffer. */
  function Encode(rs: seq<Record>): (bytes: seq<UInt8>)
    ensures |bytes| == RECORD_SIZE * |rs|
  {
    if rs == [] then [] else Encode(rs[..|rs| - 1]) + EncodeRecord(rs[|rs| - 1])
  }

  /** The first count records of data. */
  function DecodePrefix(data: seq<UInt8>, count: nat): (rs: seq<Record>)
    requires RECORD_SIZE * count <= |data|
    ensures |rs| == count
  {
    if count == 0 then []
    else DecodePrefix(data, count - 1) + [DecodeRecord(data[RECORD_SIZE * (count - 1)..RECORD_SIZE * count])]
  }

  function Decode(data: seq<UInt8>): Decoded {
    if |data| % RECORD_SIZE != 0 then WrongSize else Ok(DecodePrefix(data, |data| / RECORD_SIZE))
  }

  lemma {:induction false} DecodePrefixExtends(data: seq<UInt8>, more: seq<UInt8>, count: nat)
    requires RECORD_SIZE * count <= |data|
    ensures DecodePrefix(data + more, count) == DecodePrefix(data, count)
  {
    if count == 0 {
    } else {
      DecodePrefixExtends(data, more, count - 1);
      assert (data + more)[RECORD_SIZE * (count - 1)..RECORD_SIZE * count] ==
             data[RECORD_SIZE * (count - 1)..RECORD_SIZE * count];
    }
  }

  /** A frame followed by one more record decodes to its records followed by that one. */
  lemma DecodeAppended(data: seq<UInt8>, count: nat, r: Record)
    requires |data| == RECORD_SIZE * count
    ensures DecodePrefix(data + EncodeRecord(r), count + 1) == DecodePrefix(data, count) + [r]
  {
    var longer := data + EncodeRecord(r);
    DecodePrefixExtends(data, EncodeRecord(r), count);
    RecordRoundTrip(r);
    assert longer[RECORD_SIZE * count..RECORD_SIZE * (count + 1)] == EncodeRecord(r);
  }

  lemma {:induction false} DecodeEncodePrefix(rs: seq<Record>)
    ensures DecodePrefix(Encode(rs), |rs|) == rs
  {
    hide DecodePrefix, EncodeRecord;
    if rs == [] {
      assert DecodePrefix(Encode(rs), 0) == [];
    } else {
      var init, last := rs[..|rs| - 1], rs[|rs| - 1];
      DecodeEncodePrefix(init);
      DecodeAppended(Encode(init), |init|, last);
      assert rs == init + [last];
    }
  }

  /** Decoding the bytes of any append sequence gives those records in order. */
  lemma DecodeEncode(rs: seq<Record>)
    ensures Decode(Encode(rs)) == Ok(rs)
  {
    hide Encode, DecodePrefix;
    DecodeEncodePrefix(rs);
  }

  lemma EncodeOneMore(rs: seq<Record>, r: Record)
    ensures Encode(rs + [r]) == Encode(rs) + EncodeRecord(r)
  {
    hide EncodeRecord;
    assert (rs + [r])[..|rs|] == rs;
  }

  lemma {:induction false} EncodeDecodePrefix(data: seq<UInt8>, count: nat)
    requires RECORD_SIZE * count <= |data|
    ensures Encode(DecodePrefix(data, count)) == data[..RECORD_SIZE * count]
  {
    hide EncodeRecord, DecodeRecord, Encode;
    if count == 0 {
      assert Encode(DecodePrefix(data, 0)) == [];
    } else {
      var slice := data[RECORD_SIZE * (count - 1)..RECORD_SIZE * count];
      EncodeDecodePrefix(data, count - 1);
      EncodeOneMore(DecodePrefix(data, count - 1), DecodeRecord(slice));
      RecordBytesRoundTrip(slice);
      assert data[..RECORD_SIZE * count] == data[..RECORD_SIZE * (count - 1)] + slice;
    }
  }

  /** Any frame is either rejected for its length or re-encodes to itself. */
  lemma EncodeDecode(data: seq<UInt8>)
    ensures Decode(data).WrongSize? <==> |data| % RECORD_SIZE != 0
    ensures Decode(data).Ok? ==> Encode(Decode(data).records) == data
  {
    if |data| % RECORD_SIZE == 0 {
      EncodeDecodePrefix(data, |data| / RECORD_SIZE);
      assert data[..|data|] == data;
    }
  }

  /** Two record sequences with the same bytes are the same. */
  lemma EncodeInjective(rs: seq<Record>, rs': seq<Record>)
    requires Encode(rs) == Encode(rs')
    ensures rs == rs'
  {
    DecodeEncode(rs);
    DecodeEncode(rs');
  }

  lemma NoMultipleBetween(d: nat, k: int)
    ensures 0 - d < d * k < d ==> k == 0
  {
  }

  lemma QuotientIs(v: nat, d: nat, q: nat, r: nat)
    requires v == d * q + r && r < d
    ensures v / d == q
  {
    var k := v / d - q;
    assert d * k == d * (v / d) - d * q == r - v % d;
    NoMultipleBetween(d, k);
  }

  lemma QuotientOfQuotient(v: nat, d: nat)
    requires d > 0
    ensures v / 256 / d == v / (256 * d)
  {
    var q, r := v / 256 / d, v / 256 % d;
    assert v == 256 * (q * d + r) + v % 256;
    assert v == 256 * d * q + (256 * r + v % 256);
    QuotientIs(v, 256 * d, q, 256 * r + v % 256);
  }

  /** Byte j of a word, least significant first. */
  lemma {:induction false} ByteOfWord(v: nat, k: nat, j: nat)
    requires j < k
    ensures Pow256(j) > 0 && LittleEndian(v, k)[j] == v / Pow256(j) % 256
  {
    if j == 0 {
    } else {
      ByteOfWord(v / 256, k - 1, j - 1);
      QuotientOfQuotient(v, Pow256(j - 1));
    }
  }

  lemma {:induction false} EncodeAt(rs: seq<Record>, i: nat)
    requires i < |rs|
    ensures Encode(rs)[RECORD_SIZE * i..RECORD_SIZE * (i + 1)] == EncodeRecord(rs[i])
  {
    hide EncodeRecord;
    var init := rs[..|rs| - 1];
    if i == |init| {
    } else {
      EncodeAt(init, i);
      var last := EncodeRecord(rs[|rs| - 1]);
      assert (Encode(init) + last)[RECORD_SIZE * i..RECORD_SIZE * (i + 1)] ==
             Encode(init)[RECORD_SIZE * i..RECORD_SIZE * (i + 1)];
    }
  }

  /** Where every byte of a frame comes from: each 20 bytes are an id, a latitude and a longitude, each with its least
      significant byte first. */
  lemma ByteOfFrame(rs: seq<Record>, i: nat, j: nat)
    requires i < |rs| && j < RECORD_SIZE
    ensures
      var word := if j < 4 then rs[i].entityId else if j < 12 then rs[i].lat else rs[i].lng;
      var k := if j < 4 then j else if j < 12 then j - 4 else j - 12;
      && Pow256(k) > 0
      && Encode(rs)[20 * i + j] == word / Pow256(k) % 256
  {
    hide Encode, LittleEndian, Pow256;
    EncodeAt(rs, i);
    assert Encode(rs)[20 * i + j] == EncodeRecord(rs[i])[j];
    if j < 4 {
      ByteOfWord(rs[i].entityId, 4, j);
    } else if j < 12 {
      ByteOfWord(rs[i].lat, 8, j - 4);
    } else {
      ByteOfWord(rs[i].lng, 8, j - 12);
    }
  }

  lemma RecordAt(data: seq<UInt8>, off: nat)
    requires off + RECORD_SIZE <= |data|
    ensures DecodeRecord(data[off..off + RECORD_SIZE]) ==
            Record(ReadUInt32(data[off..off + 4]), ReadUInt64(data[off + 4..off + 12]),
                   ReadUInt64(data[off + 12..off + 20]))
  {
    var slice := data[off..off + RECORD_SIZE];
    assert slice[..4] == data[off..off + 4];
    assert slice[4..12] == data[off + 4..off + 12];
    assert slice[12..] == data[off + 12..off + 20];
  }

  method DecodeEgressFrame(data: seq<UInt8>) returns (result: Decoded)
    ensures result == Decode(data)
  {
    if |data| % RECORD_SIZE != 0 {
      return WrongSize;
    }
    var count := |data| / RECORD_SIZE;
    var records := new Record[count](_ => Record(0, 0, 0));
    var i := 0;
    while i < count
      invariant 0 <= i <= count
      invariant records[..i] == DecodePrefix(data, i)
    {
      var off := i * RECORD_SIZE;
      var entityId := ReadUInt32(data[off..off + 4]);
      var lat := ReadUInt64(data[off + 4..off + 12]);
      var lng := ReadUInt64(data[off + 12..off + 20]);
      RecordAt(data, off);
      records[i] := Record(entityId, lat, lng);
      i := i + 1;
    }
    assert records[..count] == records[..];
    return Ok(records[..]);
  }

  // ----- the growing buffer -----

  /** Go's copy of the first k bytes. */
  method Copy(dst: array<UInt8>, src: array<UInt8>, k: nat)
    requires k <= src.Length && k <= dst.Length && dst != src
    modifies dst
    ensures dst[..k] == src[..k]
  {
    var i := 0;
    while i < k
      invariant 0 <= i <= k
      invariant dst[..i] == src[..i]
    {
      dst[i] := src[i];
      i := i + 1;
    }
  }

  /** The PutUint32 and PutUint64 of one record, at off. */
  method Put(dst: array<UInt8>, off: nat, bytes: seq<UInt8>)
    requires off + |bytes| <= dst.Length
    modifies dst
    ensures dst[..off + |bytes|] == old(dst[..off]) + bytes
  {
    var i := 0;
    while i < |bytes|
      invariant 0 <= i <= |bytes|
      invariant dst[..off + i] == old(dst[..off]) + bytes[..i]
    {
      dst[off + i] := bytes[i];
      i := i + 1;
    }
  }

  /** A slice of an owned backing array: data[..len], with capacity data.Length. */
  class EgressBuffer {
    var data: array<UInt8>
    var len: nat
    var n: nat
    ghost var base: nat    // the capacity when the buffer was last empty
    ghost var copied: nat  // the bytes that growth has copied since then

    ghost predicate Valid()
      reads this
    {
      && len <= data.Length
      && len == RECORD_SIZE * n
      && MIN_CAPACITY <= base <= data.Length
      && copied + base <= data.Length
      && (copied > 0 ==> data.Length < 2 * len)
    }

    ghost function Contents(): seq<UInt8>
      reads this, data
      requires Valid()
    {
      data[..len]
    }

    /** The pool's New function. */
    constructor ()
      ensures Valid() && fresh(data) && Contents() == [] && n == 0 && copied == 0
    {
      data := new UInt8[MIN_CAPACITY](_ => 0);
      len, n := 0, 0;
      base, copied := MIN_CAPACITY, 0;
    }

    /** GetEgressBuffer may hand out a used buffer: any storage of at least the minimal capacity. */
    constructor Pooled(storage: seq<UInt8>)
      requires |storage| >= MIN_CAPACITY
      ensures Valid() && fresh(data) && Contents() == [] && n == 0 && copied == 0
    {
      data := new UInt8[|storage|](i requires 0 <= i < |storage| => storage[i]);
      len, n := 0, 0;
      base, copied := |storage|, 0;
    }

    /** Emptying keeps the storage, with whatever bytes it holds. */
    method Reset()
      requires Valid()
      modifies this
      ensures Valid() && data == old(data) && Contents() == [] && n == 0 && copied == 0
    {
      n := 0;
      len := 0;
      base, copied := data.Length, 0;
    }

    method Append(r: Record)
      requires Valid()
      modifies this, data
      ensures Valid() && (data == old(data) || fresh(data))
      ensures Contents() == old(Contents()) + EncodeRecord(r)
      ensures n == old(n) + 1
      ensures copied < 2 * len
    {
      var off := len;
      if off + RECORD_SIZE > data.Length {
        var capacity := data.Length * 2;
        var newData := new UInt8[capacity](_ => 0);
        Copy(newData, data, off);
        copied := copied + off;
        data := newData;
      }
      len := off + RECORD_SIZE;
      assert data[..off] == old(Contents());
      Put(data, off, EncodeRecord(r));
      n := n + 1;
    }

    function Bytes(): (bytes: seq<UInt8>)
      reads this, data
      requires Valid()
      ensures bytes == Contents()
    {
      data[..len]
    }
  }

  /** A buffer from the pool: new, or returned by an earlier user with whatever it holds. */
  method GetEgressBuffer() returns (buf: EgressBuffer)
    ensures fresh(buf) && fresh(buf.data) && buf.Valid() && buf.Contents() == [] && buf.n == 0
  {
    var storage: seq<UInt8> := *;
    if |storage| < MIN_CAPACITY {
      storage := seq(MIN_CAPACITY, _ => 0);
    }
    buf := new EgressBuffer.Pooled(storage);
  }
}
