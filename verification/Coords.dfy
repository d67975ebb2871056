/** Coordinates as the pipeline carries them (pkg/binary/coord.go). */
module Coords {
  import opened Words
  import Cells
  import Egress
  import Fences

  /** The value of a CoordPacket. */
  datatype Coord = Coord(lng: Float64, lat: Float64)

  function CellOf(c: Coord): UInt8 {
    Cells.ShardKey(Value(c.lat), Value(c.lng))
  }

  function PointOf(c: Coord): Fences.Point {
    Fences.Point(Value(c.lat), Value(c.lng))
  }

  function RecordOf(id: UInt32, c: Coord): Egress.Record {
    Egress.Record(id, c.lat, c.lng)
  }

  /** A CoordPacket on the heap, which the last-position map points to and overwrites in place. */
  class CoordPacket {
    var lng: Float64
    var lat: Float64

    constructor (c: Coord)
      ensures Get() == c
    {
      lng, lat := c.lng, c.lat;
    }

    function Get(): Coord
      reads this
    {
      Coord(lng, lat)
    }

    method Set(c: Coord)
      modifies this
      ensures Get() == c
    {
      lng, lat := c.lng, c.lat;
    }
  }
}
