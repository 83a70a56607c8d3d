/** `Buffer` objects: handles onto shared, counted memory, updated in place. The
    contracts are over `all`, the buffers that exist; an operation changes nothing
    about any buffer but its own, and of the counters only the ones it touches. */
module BufferObjects {
  import opened Alignment
  import BufferProtocol

  type Byte = bv8

  class Counter {
    var n: int
    ghost var released: bool

    constructor ()
      ensures n == 1 && !released
    {
      n, released := 1, false;
    }
  }

  class Buffer {
    var mem: array?<Byte>
    var off: nat
    var size: nat
    var refs: Counter?

    /** The bytes this buffer shows. */
    ghost function View(): (v: seq<Byte>)
      reads this, mem
      requires Shape()
      ensures |v| == size
    {
      if mem == null then [] else mem[off..off + size]
    }

    ghost predicate Shape()
      reads this
    {
      && (refs == null <==> mem == null)
      && (mem == null ==> size == 0)
      && (mem != null ==> off + size <= mem.Length)
    }

    /** `Buffer(size_bytes)`. */
    constructor Alloc(bytes: nat, ghost all: set<Buffer>)
      requires Good(all)
      ensures Good(all + {this}) && fresh(this)
      ensures size == bytes && off == 0
      ensures bytes == 0 ==> mem == null && refs == null
      ensures bytes > 0 ==> mem != null && fresh(mem) && refs != null && fresh(refs) && mem.Length == bytes
    {
      if bytes == 0 {
        mem, off, size, refs := null, 0, 0, null;
      } else {
        var rc := new Counter();
        var block := new Byte[bytes];
        mem, off, size, refs := block, 0, bytes, rc;
      }
      new;
      if refs == null {
        AddedNull(all, this);
      } else {
        assert Sharing(all, refs) == {};
        AddedOwner(all, this);
      }
    }

    /** Take over the fields and, unless null, one more unit of the counter. */
    method Share(other: Buffer, from: nat, count: nat, ghost all: set<Buffer>)
      requires Good(all) && this in all && other in all && this != other && refs == null
      modifies this, other.refs
      ensures from + count <= other.size ==> Good(all)
      ensures other.refs != null ==> other.refs.released == old(other.refs.released)
      ensures mem == other.mem && size == count && refs == other.refs && off == other.off + from
      ensures other.refs != null ==> other.refs.n == old(other.refs.n) + 1
    {
      hide Sharing;
      ghost var rest := all - {this};
      BeforeShare(all, rest, this, other);
      mem, off, size, refs := other.mem, other.off + from, count, other.refs;
      if refs != null {
        refs.n := refs.n + 1;
      }
      if from + count <= other.size {
        AfterShare(all, rest, this);
      }
    }

    /** `release()`: the last owner, and only the last, releases the block. */
    method Release(ghost all: set<Buffer>)
      requires Good(all) && this in all
      modifies this, refs
      ensures Good(all)
      ensures refs == null && mem == null && size == 0
      ensures old(refs) != null ==>
                && old(refs).n == old(refs.n) - 1
                && (old(refs).released <==> old(Sharing(all, refs)) == {this})
    {
      ghost var rest := all - {this};
      BeforeRelease(all, rest, this);
      ghost var rc := refs;
      if refs != null {
        refs.n := refs.n - 1;
        if refs.n == 0 {
          refs.released := true;
        }
      }
      mem, off, size, refs := null, 0, 0, null;
      AfterRelease(all, rest, this, rc);
    }

    /** `operator=(const Buffer&)`. */
    method Assign(other: Buffer, ghost all: set<Buffer>)
      requires Good(all) && this in all && other in all
      modifies this, refs, other.refs
      ensures Good(all)
      ensures mem == old(other.mem) && off == old(other.off) && size == old(other.size) && refs == old(other.refs)
      ensures View() == old(other.View())
      ensures this != other && old(refs) != refs ==>
                && (refs != null ==> refs.n == old(other.refs.n) + 1)
                && (old(refs) != null ==>
                      && old(refs).n == old(refs.n) - 1
                      && (old(refs).released <==> old(Sharing(all, refs)) == {this}))
      ensures old(refs) == refs && refs != null ==> refs.n == old(refs.n) && !refs.released
    {
      if this == other {
        return;
      }
      Release(all);
      Share(other, 0, other.size, all);
    }

    /** `operator=(Buffer&&)`. */
    method MoveAssign(other: Buffer, ghost all: set<Buffer>)
      requires Good(all) && this in all && other in all
      modifies this, refs, other
      ensures Good(all)
      ensures mem == old(other.mem) && off == old(other.off) && size == old(other.size) && refs == old(other.refs)
      ensures View() == old(other.View())
      ensures this != other ==> other.refs == null && other.mem == null && other.size == 0
      ensures this != other && old(refs) != null ==>
                && old(refs).n == old(refs.n) - 1
                && (old(refs).released <==> old(Sharing(all, refs)) == {this})
    {
      if this == other {
        return;
      }
      Release(all);
      TakeFrom(other, all);
    }

    /** A null buffer takes `other`'s fields and leaves it null; no counter moves. */
    method TakeFrom(other: Buffer, ghost all: set<Buffer>)
      requires Good(all) && this in all && other in all && this != other && refs == null
      modifies this, other
      ensures Good(all)
      ensures mem == old(other.mem) && off == old(other.off) && size == old(other.size) && refs == old(other.refs)
      ensures other.refs == null && other.mem == null && other.size == 0
    {
      hide Sharing;
      ghost var rest := all - {this} - {other};
      BeforeMove(all, rest, this, other);
      ghost var rc := other.refs;
      ghost var share := if rc == null then 0 else rc.n - 1;
      assert GoodBut(rest, rc, share);
      mem, off, size, refs := other.mem, other.off, other.size, other.refs;
      other.mem, other.off, other.size, other.refs := null, 0, 0, null;
      assert GoodBut(rest, rc, share);
      AfterMove(all, rest, this, other);
    }

    /** `slice`: empty when the range does not fit, else a new owner of the block. A range
        whose machine sum wraps can be taken for one that fits; what is shown then does not
        lie in the block. */
    method Slice(offset: nat, count: nat, ghost all: set<Buffer>) returns (sub: Buffer)
      requires Good(all) && this in all && offset <= SIZE_MAX && count <= SIZE_MAX
      requires mem != null ==> mem.Length <= SIZE_MAX
      modifies refs
      ensures fresh(sub) && View() == old(View())
      ensures !BufferProtocol.SliceAccepts(size, offset, count) ==>
                Good(all + {sub}) && sub.refs == null && sub.mem == null
      ensures offset + count <= size ==>
                && BufferProtocol.SliceAccepts(size, offset, count)
                && Good(all + {sub}) && sub.View() == View()[offset..offset + count]
      ensures BufferProtocol.SliceAccepts(size, offset, count) ==>
                && sub.mem == mem && sub.off == off + offset && sub.size == count && sub.refs == refs
                && (refs != null ==> refs.n == old(refs.n) + 1)
                && (offset + count > size ==> offset + count > SIZE_MAX && !sub.Shape())
    {
      ShapeOf(all, this);
      BufferProtocol.AcceptedSlice(size, offset, count);
      hide Good, GoodBut, NoneReleased, Sharing, BufferProtocol.SliceAccepts;
      sub := new Buffer.Alloc(0, all);
      if !BufferProtocol.SliceAccepts(size, offset, count) {
        return;
      }
      if mem != null && offset + count <= size {
        SubRange(mem, off, size, offset, count);
      }
      sub.Share(this, offset, count, all + {sub});
    }

    /** `resize`: a new block holding the common prefix replaces this buffer's. */
    method Resize(bytes: nat, ghost all: set<Buffer>)
      requires Good(all) && this in all
      modifies this, refs
      ensures Good(all) && size == bytes
      ensures forall i | 0 <= i < bytes && i < old(size) :: View()[i] == old(View())[i]
      ensures forall h | h in all && h != this :: h.View() == old(h.View())
      ensures bytes != old(size) && old(refs) != null ==>
                old(refs).n == old(refs.n) - 1 && (old(refs).released <==> old(Sharing(all, refs)) == {this})
    {
      if bytes == size {
        return;
      }
      hide Good, GoodBut, NoneReleased;
      var wider := Resized(bytes, all);
      assert Sharing(all + {wider}, refs) == Sharing(all, refs);
      MoveAssign(wider, all + {wider});
      RemovedNull(all, wider);
    }

    /** The replacement block of `resize`, filled. */
    method Resized(bytes: nat, ghost all: set<Buffer>) returns (wider: Buffer)
      requires Good(all) && this in all
      ensures fresh(wider) && Good(all + {wider}) && wider.size == bytes
      ensures forall i | 0 <= i < bytes && i < size :: wider.View()[i] == View()[i]
      ensures wider.refs != null ==> fresh(wider.refs)
    {
      ShapeOf(all, this);
      hide Good, GoodBut, NoneReleased, Sharing, View;
      wider := new Buffer.Alloc(bytes, all);
      ShapeOf(all + {wider}, wider);
      if mem != null && bytes > 0 {
        wider.CopyFrom(this, if size < bytes then size else bytes);
      }
    }

    /** `memcpy` to the front of a block. */
    method CopyFrom(src: Buffer, n: nat)
      requires Shape() && src.Shape() && mem != null && src.mem != null && mem != src.mem
      requires n <= size && n <= src.size && off == 0
      modifies mem
      ensures forall i | 0 <= i < n :: View()[i] == src.View()[i]
    {
      CopyBytes(src.mem, src.off, mem, n);
    }
  }

  /** `memcpy`. */
  method CopyBytes(src: array<Byte>, from: nat, dst: array<Byte>, n: nat)
    requires src != dst && from + n <= src.Length && n <= dst.Length
    modifies dst
    ensures forall j | 0 <= j < n :: dst[j] == src[from + j]
  {
    for i := 0 to n
      invariant forall j | 0 <= j < i :: dst[j] == src[from + j]
    {
      dst[i] := src[from + i];
    }
  }

  lemma SubRange(block: array<Byte>, off: nat, size: nat, from: nat, count: nat)
    requires off + size <= block.Length && from + count <= size
    ensures block[off..off + size][from..from + count] == block[off + from..off + from + count]
  {
    var view, part := block[off..off + size], block[off + from..off + from + count];
    assert view[from..from + count] == part by {
      assert |view[from..from + count]| == |part|;
      forall i | 0 <= i < count
        ensures view[from..from + count][i] == part[i]
      {
        assert view[from + i] == block[off + from + i];
      }
    }
  }

  ghost function Sharing(all: set<Buffer>, rc: Counter?): set<Buffer>
    reads all
  {
    set h | h in all && h.refs == rc
  }

  /** Good, except that counter `rc` should read `count`. */
  ghost predicate GoodBut(all: set<Buffer>, rc: Counter?, count: int)
    reads all, set h | h in all && h.refs != null :: h.refs
  {
    && (forall h | h in all :: h.Shape())
    && (forall h | h in all && h.refs != null :: (if h.refs == rc then count else h.refs.n) == |Sharing(all, h.refs)|)
    && (forall h, g | h in all && g in all && h.refs != null && g.refs != null :: h.refs == g.refs <==> h.mem == g.mem)
  }

  /** Every counter counts the buffers sharing it and is not released, and buffers
      share memory exactly when they share a counter. */
  ghost predicate Good(all: set<Buffer>)
    reads all, set h | h in all && h.refs != null :: h.refs
  {
    GoodBut(all, null, 0) && NoneReleased(all)
  }

  ghost predicate NoneReleased(all: set<Buffer>)
    reads all, set h | h in all && h.refs != null :: h.refs
  {
    forall h | h in all && h.refs != null :: !h.refs.released
  }

  lemma ShapeOf(all: set<Buffer>, b: Buffer)
    requires Good(all) && b in all
    ensures b.Shape()
  {
  }

  /** `b` joins, its counter already counting it. */
  lemma AddedOwner(rest: set<Buffer>, b: Buffer)
    requires b !in rest && b.Shape() && b.refs != null && !b.refs.released
    requires GoodBut(rest, b.refs, b.refs.n - 1) && b.refs.n - 1 == |Sharing(rest, b.refs)| && NoneReleased(rest)
    requires forall h | h in rest && h.refs != null :: h.refs == b.refs <==> h.mem == b.mem
    ensures Good(rest + {b})
  {
    assert Sharing(rest + {b}, b.refs) == Sharing(rest, b.refs) + {b};
    forall h | h in rest && h.refs != null && h.refs != b.refs
      ensures Sharing(rest + {b}, h.refs) == Sharing(rest, h.refs)
    {
    }
  }

  lemma AddedNull(rest: set<Buffer>, b: Buffer)
    requires Good(rest) && b.Shape() && b.refs == null
    ensures Good(rest + {b})
  {
    forall h | h in rest && h.refs != null
      ensures Sharing(rest + {b}, h.refs) == Sharing(rest, h.refs)
    {
    }
  }

  /** Seen without the null buffer `b`, everything counts what it did. */
  lemma BeforeShare(all: set<Buffer>, rest: set<Buffer>, b: Buffer, other: Buffer)
    requires Good(all) && b in all && rest == all - {b} && other in rest && b.refs == null
    ensures NoneReleased(rest) && other.Shape()
    ensures GoodBut(rest, other.refs, if other.refs == null then 0 else other.refs.n)
    ensures other.refs != null ==> other.refs.n == |Sharing(rest, other.refs)|
    ensures other.refs != null ==>
              forall h | h in rest && h.refs != null :: h.refs == other.refs <==> h.mem == other.mem
  {
    assert rest + {b} == all;
    RemovedNull(rest, b);
  }

  lemma AfterShare(all: set<Buffer>, rest: set<Buffer>, b: Buffer)
    requires b in all && rest == all - {b} && b.Shape() && NoneReleased(rest)
    requires GoodBut(rest, b.refs, if b.refs == null then 0 else b.refs.n - 1)
    requires b.refs != null ==> !b.refs.released && b.refs.n - 1 == |Sharing(rest, b.refs)|
    requires b.refs != null ==> forall h | h in rest && h.refs != null :: h.refs == b.refs <==> h.mem == b.mem
    ensures Good(all)
  {
    assert rest + {b} == all;
    if b.refs == null {
      AddedNull(rest, b);
    } else {
      AddedOwner(rest, b);
    }
  }

  lemma RemovedNull(all: set<Buffer>, b: Buffer)
    requires Good(all + {b}) && b !in all && b.refs == null
    ensures Good(all)
  {
    forall h | h in all && h.refs != null
      ensures Sharing(all + {b}, h.refs) == Sharing(all, h.refs)
    {
    }
  }

  /** Seen without `b`, the counter `b` owns is one too high; and it stands at 1
      exactly when `b` is its only owner. */
  lemma WithoutOwner(rest: set<Buffer>, b: Buffer)
    requires Good(rest + {b}) && b !in rest && b.refs != null
    ensures GoodBut(rest, b.refs, b.refs.n - 1) && b.refs.n - 1 == |Sharing(rest, b.refs)| && NoneReleased(rest)
    ensures forall h | h in rest && h.refs != null :: h.refs == b.refs <==> h.mem == b.mem
    ensures b.refs.n == 1 <==> Sharing(rest + {b}, b.refs) == {b}
    ensures b.refs.n == 1 ==> forall h | h in rest :: h.refs != b.refs
  {
    var all := rest + {b};
    assert Sharing(all, b.refs) == Sharing(rest, b.refs) + {b};
    forall h | h in rest && h.refs != null && h.refs != b.refs
      ensures Sharing(all, h.refs) == Sharing(rest, h.refs)
    {
    }
    forall h | h in rest && h.refs == b.refs
      ensures b.refs.n > 1
    {
      assert h in Sharing(rest, b.refs);
    }
  }

  /** The rest of the buffers, together with an owner that may be null. */
  ghost predicate GoodWith(rest: set<Buffer>, b: Buffer)
    reads b, rest, (if b.refs == null then {} else {b.refs}), set h | h in rest && h.refs != null :: h.refs
  {
    if b.refs == null then Good(rest)
    else
      && !b.refs.released
      && NoneReleased(rest)
      && GoodBut(rest, b.refs, b.refs.n - 1) && b.refs.n - 1 == |Sharing(rest, b.refs)|
      && forall h | h in rest && h.refs != null :: h.refs == b.refs <==> h.mem == b.mem
  }

  lemma BeforeRelease(all: set<Buffer>, rest: set<Buffer>, b: Buffer)
    requires Good(all) && b in all && rest == all - {b}
    ensures NoneReleased(rest)
    ensures b.refs == null ==> GoodBut(rest, null, 0)
    ensures b.refs != null ==>
              && GoodBut(rest, b.refs, b.refs.n - 1)
              && (b.refs.n == 1 <==> Sharing(all, b.refs) == {b})
              && (b.refs.n == 1 ==> forall h | h in rest :: h.refs != b.refs)
  {
    assert all == rest + {b};
    if b.refs == null {
      RemovedNull(rest, b);
    } else {
      WithoutOwner(rest, b);
    }
  }

  lemma AfterRelease(all: set<Buffer>, rest: set<Buffer>, b: Buffer, rc: Counter?)
    requires b in all && rest == all - {b} && b.Shape() && b.refs == null
    requires NoneReleased(rest) && GoodBut(rest, rc, if rc == null then 0 else rc.n)
    ensures Good(all)
  {
    assert all == rest + {b};
    assert GoodBut(rest, null, 0);
    AddedNull(rest, b);
  }

  lemma BeforeMove(all: set<Buffer>, rest: set<Buffer>, b: Buffer, other: Buffer)
    requires Good(all) && b in all && other in all && b != other && b.refs == null
    requires rest == all - {b} - {other}
    ensures other.Shape() && GoodWith(rest, other)
  {
    assert all == rest + {other} + {b};
    RemovedNull(rest + {other}, b);
    if other.refs == null {
      RemovedNull(rest, other);
    } else {
      WithoutOwner(rest, other);
    }
  }

  lemma AfterMove(all: set<Buffer>, rest: set<Buffer>, b: Buffer, other: Buffer)
    requires b in all && other in all && b != other && rest == all - {b} - {other}
    requires b.Shape() && other.Shape() && other.refs == null && GoodWith(rest, b)
    ensures Good(all)
  {
    assert all == rest + {b} + {other};
    if b.refs == null {
      AddedNull(rest, b);
    } else {
      AddedOwner(rest, b);
    }
    AddedNull(rest + {b}, other);
  }
}
