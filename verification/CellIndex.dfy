/** The lists by cell that the fence store and the fanout engine keep (pkg/geofence/store.go, pkg/fanout/engine.go). */
module CellIndex {
  import opened Words
  import opened Seqs

  /** Appends x to the list of each of the keys. */
  method AppendTo<T>(index: array<seq<T>>, keys: seq<UInt8>, x: T)
    requires index.Length == 256 && NoDuplicates(keys)
    modifies index
    ensures forall c: UInt8 :: index[c] == old(index[c]) + if c in keys then [x] else []
  {
    var k := 0;
    while k < |keys|
      invariant 0 <= k <= |keys|
      invariant forall c: UInt8 :: index[c] == old(index[c]) + if c in keys[..k] then [x] else []
    {
      var key := keys[k];
      assert key !in keys[..k];
      index[key] := index[key] + [x];
      assert keys[..k + 1] == keys[..k] + [key];
      k := k + 1;
    }
    assert keys[..k] == keys;
  }
}
