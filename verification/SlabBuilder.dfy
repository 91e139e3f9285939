/** The packed post-poll slab: typed fields reserved one after the other on 16-byte boundaries, and three
  * byte fills that initialise its regions. */
module SlabBuilder {

  function Align16(x: nat): (r: nat)
    ensures r % 16 == 0 && x <= r < x + 16
  {
    (x + 15) / 16 * 16
  }

  datatype Extent = Extent(off: nat, bytes: nat)

  /** Extents of a slab of n bytes: aligned, in order, and each ends before the next begins. */
  predicate Packed(fields: seq<Extent>, n: nat) {
    && (forall k: nat :: k < |fields| ==> fields[k].off % 16 == 0 && fields[k].off + fields[k].bytes <= n)
    && (forall j: nat, k: nat :: j < k < |fields| ==> fields[j].off + fields[j].bytes <= fields[k].off)
  }

  class Builder {
    var cursor: nat
    ghost var fields: seq<Extent>

    ghost predicate Valid()
      reads this
    {
      cursor % 16 == 0 && Packed(fields, cursor)
    }

    constructor ()
      ensures Valid() && cursor == 0 && fields == []
    {
      cursor := 0;
      fields := [];
    }

    method ReserveBytes(bytes: nat) returns (off: nat)
      requires Valid()
      modifies this
      ensures Valid() && fields == old(fields) + [Extent(off, bytes)]
      ensures off == old(cursor) && old(cursor) + bytes <= cursor < old(cursor) + bytes + 16
    {
      off := Align16(cursor);
      cursor := Align16(off + bytes);
      fields := fields + [Extent(off, bytes)];
    }

    /** A run of fields, in order. */
    method ReserveAll(sizes: seq<nat>)
      requires Valid()
      modifies this
      ensures Valid() && old(cursor) <= cursor && |fields| == old(|fields|) + |sizes|
      ensures fields[..old(|fields|)] == old(fields)
      ensures forall k: nat :: old(|fields|) <= k < |fields| ==>
                fields[k].bytes == sizes[k - old(|fields|)] && old(cursor) <= fields[k].off
                && fields[k].off + fields[k].bytes <= cursor
    {
      for k := 0 to |sizes|
        invariant Valid() && old(cursor) <= cursor && |fields| == old(|fields|) + k
        invariant fields[..old(|fields|)] == old(fields)
        invariant forall i: nat :: old(|fields|) <= i < |fields| ==>
                    fields[i].bytes == sizes[i - old(|fields|)] && old(cursor) <= fields[i].off
                    && fields[i].off + fields[i].bytes <= cursor
      {
        var off := ReserveBytes(sizes[k]);
      }
    }
  }

  type byte = x: int | 0 <= x < 256

  method Memset(slab: array<byte>, from: nat, value: byte, n: nat)
    requires from + n <= slab.Length
    modifies slab
    ensures forall i: nat :: i < slab.Length ==> slab[i] == if from <= i < from + n then value else old(slab[i])
  {
    for k := 0 to n
      invariant forall i: nat :: i < slab.Length ==> slab[i] == if from <= i < from + k then value else old(slab[i])
    {
      slab[from + k] := value;
    }
  }

  /** The bytes of the field all hold v; an empty field may sit at the very end of the slab. */
  predicate Holds(slab: seq<byte>, f: Extent, v: byte) {
    f.off + f.bytes <= |slab| && forall i: nat :: f.off <= i < f.off + f.bytes ==> slab[i] == v
  }

  /** The post-poll slab: counters and weights zeroed, slot scalars at -1, per-token arrays zeroed. Whatever
    * the sizes, empty fields included, every byte of every field has its region's fill, and no two fields share
    * a byte. */
  method AllocatePostPoll(zPre: seq<nat>, minus1: seq<nat>, zPost: seq<nat>)
    returns (slab: array<byte>, ghost fields: seq<Extent>)
    ensures fresh(slab) && Packed(fields, slab.Length) && |fields| == |zPre| + |minus1| + |zPost|
    ensures forall k: nat :: k < |fields| ==> fields[k].bytes == (zPre + minus1 + zPost)[k]
    ensures forall k: nat :: k < |fields| ==>
              Holds(slab[..], fields[k], if |zPre| <= k < |zPre| + |minus1| then 0xFF else 0)
  {
    var b := new Builder();
    b.ReserveAll(zPre);
    var zPreBytes := b.cursor;
    ghost var pre := b.fields;
    b.ReserveAll(minus1);
    var nEnd := b.cursor;
    ghost var mid := b.fields;
    b.ReserveAll(zPost);
    fields := b.fields;
    assert forall k: nat :: k < |pre| ==> fields[k] == mid[k] == pre[k] by {
      assert forall k: nat :: k < |mid| ==> fields[k] == fields[..|mid|][k];
      assert forall k: nat :: k < |pre| ==> mid[k] == mid[..|pre|][k];
    }
    assert forall k: nat :: k < |mid| ==> fields[k] == fields[..|mid|][k];
    slab := new byte[b.cursor];
    Memset(slab, 0, 0, zPreBytes);
    Memset(slab, zPreBytes, 0xFF, nEnd - zPreBytes);
    Memset(slab, nEnd, 0, b.cursor - nEnd);
    forall k: nat | k < |fields|
      ensures Holds(slab[..], fields[k], if |zPre| <= k < |zPre| + |minus1| then 0xFF else 0)
      ensures fields[k].bytes == (zPre + minus1 + zPost)[k]
    {
      if k < |pre| {
        assert fields[k] == pre[k];
      } else if k < |mid| {
        assert fields[k] == mid[k];
      }
    }
  }
}
