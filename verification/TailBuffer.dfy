/** The bounded capture of a command's output: a fixed buffer that slides over everything written to it. */
module TailBuffer {
  import opened Bytes

  const MAX_CAPTURED_BYTES := 2 * 1024 * 1024

  class TailBuffer {
    const max: int
    const store: array<byte>
    var len: nat
    var total: nat
    /** Everything ever written. */
    ghost var written: seq<byte>

    ghost predicate Valid()
      reads this, store
    {
      && store.Length == (if max <= 0 then 0 else max)
      && len <= store.Length
      && store[..len] == Last(written, max)
      && total == |written|
    }

    constructor (maxBytes: int)
      ensures Valid() && fresh(store) && written == []
      ensures max == if maxBytes <= 0 then MAX_CAPTURED_BYTES else maxBytes
    {
      var limit := if maxBytes <= 0 then MAX_CAPTURED_BYTES else maxBytes;
      max, store := limit, new byte[limit](_ => 0);
      len, total, written := 0, 0, [];
    }

    /** Append `p`, which fits behind what is kept. */
    method Append(p: seq<byte>)
      requires len + |p| <= store.Length
      modifies this`len, store
      ensures len == old(len) + |p| && store[..len] == old(store[..len]) + p
    {
      ghost var kept := store[..len];
      for i := 0 to |p|
        invariant len + |p| <= store.Length && len == old(len)
        invariant store[..len + i] == kept + p[..i]
      {
        store[len + i] := p[i];
        assert store[..len + i + 1] == store[..len + i] + [p[i]];
        assert p[..i + 1] == p[..i] + [p[i]];
      }
      assert p[..|p|] == p;
      len := len + |p|;
    }

    /** Shift the kept bytes down by `drop`, within the buffer. */
    method DropFront(drop: nat)
      requires drop <= len <= store.Length
      modifies this`len, store
      ensures len == old(len) - drop && store[..len] == old(store[drop..len])
    {
      for i := 0 to len - drop
        invariant len == old(len)
        invariant forall k :: 0 <= k < i ==> store[k] == old(store[k + drop])
        invariant forall k :: i <= k < store.Length ==> store[k] == old(store[k])
      {
        store[i] := store[i + drop];
      }
      len := len - drop;
    }

    /** Whatever the sizes of the writes, the buffer holds the last bytes of everything written. */
    method Write(p: seq<byte>) returns (n: nat)
      requires Valid()
      modifies this, store
      ensures Valid() && written == old(written) + p && n == |p|
    {
      hide Last;
      total, n := total + |p|, |p|;
      LastOfAppend(written, p, max);
      written := written + p;
      if max <= 0 {
        LastOfNothing(written, max);
        return;
      }
      LastSlides(store[..len], p, max);
      if |p| >= max {
        len := 0;
        assert store[..len] == [];
        Append(p[|p| - max..]);
        return;
      }
      var drop := len + |p| - max;
      if drop > 0 {
        DropFront(drop);
      }
      Append(p);
    }

    method String() returns (s: seq<byte>)
      requires Valid()
      ensures s == Last(written, max)
    {
      s := store[..len];
    }

    method TotalBytes() returns (n: nat)
      requires Valid()
      ensures n == |written|
    {
      n := total;
    }

    /** True exactly when bytes were lost. */
    method Truncated() returns (lost: bool)
      requires Valid()
      ensures max >= 0 ==> (lost <==> Last(written, max) != written)
    {
      lost := total > max;
    }
  }

  /** A command's output arrives in any number of writes of any sizes; the result only depends on their
      concatenation. */
  method Capture(maxBytes: int, writes: seq<seq<byte>>) returns (text: seq<byte>, total: nat, lost: bool)
    ensures var limit := if maxBytes <= 0 then MAX_CAPTURED_BYTES else maxBytes;
            && text == Last(Flatten(writes), limit)
            && total == |Flatten(writes)|
            && (lost <==> text != Flatten(writes))
  {
    var buffer := new TailBuffer(maxBytes);
    for i := 0 to |writes|
      invariant buffer.Valid() && fresh(buffer) && fresh(buffer.store)
      invariant buffer.written == Flatten(writes[..i])
    {
      var _ := buffer.Write(writes[i]);
      assert writes[..i + 1][..i] == writes[..i];
    }
    assert writes[..|writes|] == writes;
    text := buffer.String();
    total := buffer.TotalBytes();
    lost := buffer.Truncated();
  }
}
