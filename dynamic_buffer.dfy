// The growable byte buffer of src-xpl/xpl_dynamic_buffer.c: an allocation,
// its recorded capacity, the length in use and a dirty byte range that tells
// the GPU upload what changed. Each operation is a function on the buffer's
// state; the class applies it in place.

module DynamicBuffer {

  type Byte = x: int | 0 <= x < 0x100

  /** The fields of xpl_dynamic_buffer_t; `content` is the whole allocation. */
  datatype BufferState = BufferState(content: seq<Byte>, capacity: nat, length: nat, dirtyMin: nat, dirtyMax: nat)

  /** A zero-initialised buffer (xpl_dynamic_buffer_new). */
  const Empty := BufferState([], 0, 0, 0, 0)

  /** The capacity records the allocation and the data fits in it. */
  predicate Valid(s: BufferState)
  {
    s.length <= s.capacity == |s.content|
  }

  /** The bytes in use. */
  function Data(s: BufferState): seq<Byte>
    requires s.length <= |s.content|
  {
    s.content[..s.length]
  }

  function Max(a: nat, b: nat): nat { if a >= b then a else b }
  function Min(a: nat, b: nat): nat { if a <= b then a else b }

  function Zeros(n: nat): (z: seq<Byte>)
    ensures |z| == n && forall i :: 0 <= i < n ==> z[i] == 0
  {
    seq(n, _ => 0)
  }

  /** realloc: keeps the common prefix; new bytes are modelled as zero. */
  function Realloc(content: seq<Byte>, n: nat): (r: seq<Byte>)
    ensures |r| == n
    ensures forall i :: 0 <= i < n && i < |content| ==> r[i] == content[i]
  {
    if n <= |content| then content[..n] else content + Zeros(n - |content|)
  }

  /** xpl_dynamic_buffer_is_clean. */
  predicate IsClean(s: BufferState)
  {
    s.dirtyMax == 0
  }

  /** xpl_dynamic_buffer_mark_clean: the range becomes [length, 0). */
  function MarkClean(s: BufferState): (r: BufferState)
    ensures IsClean(r) && r.dirtyMin == s.length
    ensures r.content == s.content && r.capacity == s.capacity && r.length == s.length
  {
    s.(dirtyMin := s.length, dirtyMax := 0)
  }

  /** xpl_dynamic_buffer_clear: no data, and clean. */
  function Clear(s: BufferState): (r: BufferState)
    ensures r.length == 0 && IsClean(r) && r.dirtyMin == 0
    ensures r.content == s.content && r.capacity == s.capacity
  {
    MarkClean(s.(length := 0))
  }

  /** xpl_dynamic_buffer_alloc: grow the allocation and the capacity by
      dataLen zero bytes; with asData the new bytes also become data. */
  function Alloc(s: BufferState, dataLen: nat, asData: bool): BufferState
    requires s.capacity <= |s.content|
  {
    if dataLen == 0 then s
    else
      var c := Realloc(s.content, s.capacity + dataLen);
      var content := c[..s.capacity] + Zeros(dataLen);
      if asData then
        BufferState(content, s.capacity + dataLen, s.length + dataLen, s.dirtyMin, Max(s.dirtyMax, s.length + dataLen))
      else
        BufferState(content, s.capacity + dataLen, s.length, s.dirtyMin, s.dirtyMax)
  }

  /** xpl_dynamic_buffer_append: grow when the data does not fit, copy it in
      at the old length, and widen the dirty range over it. The caller's
      buffer need only have its recorded capacity allocated. */
  function Append(s: BufferState, data: seq<Byte>): (r: BufferState)
    requires s.capacity <= |s.content| && s.length <= |s.content|
    ensures r.capacity <= |r.content| && r.length <= |r.content|
    ensures |data| > 0 ==> r.length == s.length + |data|
  {
    if |data| == 0 then s
    else
      var grown := if s.length + |data| > s.capacity then Alloc(s, s.length + |data| - s.capacity, false) else s;
      assert s.length + |data| <= grown.capacity <= |grown.content|;
      var c := grown.content;
      BufferState(c[..s.length] + data + c[s.length + |data|..], grown.capacity, s.length + |data|,
                  Min(s.dirtyMin, s.length), Max(s.dirtyMax, s.length + |data|))
  }

  /** The three-stage copy of xpl_dynamic_buffer_insert after the buffer
      has room for newlen bytes: move the tail up, then copy the data in. */
  function Spliced(c: seq<Byte>, offset: nat, length: nat, data: seq<Byte>): (r: seq<Byte>)
    requires offset <= length && length + |data| <= |c|
    ensures |r| == |c|
  {
    c[..offset] + data + c[offset..length] + c[length + |data|..]
  }

  /** xpl_dynamic_buffer_insert as written: the realloc grows the allocation
      but leaves the capacity field as it was. */
  function InsertAsWritten(s: BufferState, offset: nat, data: seq<Byte>): (r: BufferState)
    requires offset <= s.length <= |s.content| && s.capacity <= |s.content|
    ensures r.capacity <= |r.content| && r.length <= |r.content|
  {
    if |data| == 0 then s
    else if offset == s.length then Append(s, data)
    else
      var newlen := s.length + |data|;
      var c := if newlen > s.capacity then Realloc(s.content, newlen) else s.content;
      assert newlen <= |c|;
      BufferState(Spliced(c, offset, s.length, data), s.capacity, newlen,
                  Min(s.dirtyMin, offset), Max(s.dirtyMax, newlen))
  }

  /** The corrected insert: a grown allocation is recorded as the capacity. */
  function Insert(s: BufferState, offset: nat, data: seq<Byte>): (r: BufferState)
    requires offset <= s.length <= |s.content| && s.capacity <= |s.content|
    ensures r.capacity <= |r.content| && r.length <= |r.content|
  {
    if |data| == 0 then s
    else if offset == s.length then Append(s, data)
    else
      var newlen := s.length + |data|;
      var grew := newlen > s.capacity;
      var c := if grew then Realloc(s.content, newlen) else s.content;
      BufferState(Spliced(c, offset, s.length, data), if grew then newlen else s.capacity, newlen,
                  Min(s.dirtyMin, offset), Max(s.dirtyMax, newlen))
  }

  /** xpl_dynamic_buffer_delete as written: the second memmove copies
      length - dataLen bytes starting dataLen past the offset, so it reaches
      offset + length, past the data whenever offset > 0. None when that
      copy leaves the allocation (or the count underflows). */
  function DeleteAsWritten(s: BufferState, offset: nat, dataLen: nat): Option<BufferState>
    requires offset + dataLen <= s.capacity <= |s.content| && s.length <= |s.content|
  {
    if dataLen == 0 then Some(s)
    else if s.length < dataLen || offset + s.length > |s.content| then None
    else
      var c := s.content;
      var count := s.length - dataLen;
      Some(BufferState(c[..offset] + c[offset + dataLen..offset + dataLen + count] + c[offset + count..],
                       s.capacity, s.length - dataLen, Min(s.dirtyMin, offset), Max(s.dirtyMax, s.length)))
  }

  /** The corrected delete: only the length - offset - dataLen bytes after
      the deleted range move down. */
  function Delete(s: BufferState, offset: nat, dataLen: nat): (r: BufferState)
    requires offset + dataLen <= s.length <= |s.content|
    ensures r.capacity == s.capacity && |r.content| == |s.content| && r.length <= |r.content|
  {
    if dataLen == 0 then s
    else
      var c := s.content;
      BufferState(c[..offset] + c[offset + dataLen..s.length] + c[s.length - dataLen..],
                  s.capacity, s.length - dataLen, Min(s.dirtyMin, offset), Max(s.dirtyMax, s.length))
  }

  /** xpl_dynamic_buffer_update: overwrite inside the data and widen the
      dirty range over exactly the written bytes. */
  function Update(s: BufferState, offset: nat, data: seq<Byte>): (r: BufferState)
    requires offset + |data| <= s.length <= |s.content|
    ensures |r.content| == |s.content|
  {
    if |data| == 0 then s
    else
      var c := s.content;
      BufferState(c[..offset] + data + c[offset + |data|..], s.capacity, s.length,
                  Min(s.dirtyMin, offset), Max(s.dirtyMax, offset + |data|))
  }

  datatype Option<T> = None | Some(value: T)

  // ---- what the operations promise

  lemma AllocSpec(s: BufferState, dataLen: nat, asData: bool)
    requires Valid(s)
    ensures var r := Alloc(s, dataLen, asData);
      && Valid(r)
      && r.capacity == s.capacity + dataLen
      && r.content[..s.capacity] == s.content
      && (forall i :: s.capacity <= i < r.capacity ==> r.content[i] == 0)
      && r.length == (if asData then s.length + dataLen else s.length)
  {
    if dataLen > 0 {
      var r := Alloc(s, dataLen, asData);
      assert r.content[..s.capacity] == Realloc(s.content, s.capacity + dataLen)[..s.capacity];
    }
  }

  /** Alloc as data extends the data by the bytes that follow it in the
      allocation; only the bytes past the old capacity are fresh zeros, so
      the new data is all zero exactly when the buffer was full. */
  lemma AllocAsDataSpec(s: BufferState, dataLen: nat)
    requires Valid(s)
    ensures var r := Alloc(s, dataLen, true);
      && Valid(r)
      && Data(r) == Data(s) + r.content[s.length..s.length + dataLen]
      && (s.length == s.capacity ==> Data(r) == Data(s) + Zeros(dataLen))
  {
    AllocSpec(s, dataLen, true);
    var r := Alloc(s, dataLen, true);
    assert Data(r)[..s.length] == Data(s) by {
      assert r.content[..s.capacity][..s.length] == s.content[..s.length];
    }
    assert Data(r) == Data(r)[..s.length] + r.content[s.length..s.length + dataLen];
    if s.length == s.capacity {
      assert r.content[s.length..s.length + dataLen] == Zeros(dataLen);
    }
  }

  /** Append puts the data after the old data and keeps the capacity at least the length. */
  lemma AppendSpec(s: BufferState, data: seq<Byte>)
    requires Valid(s)
    ensures var r := Append(s, data);
      Valid(r) && Data(r) == Data(s) + data && r.capacity >= s.capacity
  {
    if |data| > 0 {
      var grown := if s.length + |data| > s.capacity then Alloc(s, s.length + |data| - s.capacity, false) else s;
      if s.length + |data| > s.capacity {
        AllocSpec(s, s.length + |data| - s.capacity, false);
      }
      assert grown.content[..s.length] == s.content[..s.length];
      var r := Append(s, data);
      assert Data(r) == grown.content[..s.length] + data;
    }
  }

  /** Append widens the dirty range over the appended bytes. */
  lemma AppendDirtiesAppended(s: BufferState, data: seq<Byte>)
    requires Valid(s) && |data| > 0
    ensures var r := Append(s, data);
      r.dirtyMin <= s.length && r.dirtyMax >= s.length + |data| && !IsClean(r)
  {
  }

  /** Update keeps the length and replaces exactly the bytes it covers, which
      the dirty range then includes. */
  lemma UpdateSpec(s: BufferState, offset: nat, data: seq<Byte>)
    requires Valid(s) && offset + |data| <= s.length
    ensures var r := Update(s, offset, data);
      && Valid(r) && r.length == s.length
      && Data(r) == Data(s)[..offset] + data + Data(s)[offset + |data|..]
      && (|data| > 0 ==> r.dirtyMin <= offset && offset + |data| <= r.dirtyMax)
  {
    if |data| > 0 {
      var r := Update(s, offset, data);
      assert Data(r) == (s.content[..offset] + data + s.content[offset + |data|..])[..s.length];
    }
  }

  /** Insert puts the data at the offset, keeps the prefix and shifts the rest. */
  lemma InsertSpec(s: BufferState, offset: nat, data: seq<Byte>)
    requires Valid(s) && offset <= s.length
    ensures var r := Insert(s, offset, data);
      && Valid(r) && r.length == s.length + |data|
      && Data(r) == Data(s)[..offset] + data + Data(s)[offset..]
  {
    if |data| > 0 && offset == s.length {
      AppendSpec(s, data);
      assert Data(s)[offset..] == [];
    } else if |data| > 0 {
      var newlen := s.length + |data|;
      var c := if newlen > s.capacity then Realloc(s.content, newlen) else s.content;
      assert c[..s.length] == Data(s);
      assert Insert(s, offset, data).content == Spliced(c, offset, s.length, data);
      SplicedData(c, offset, s.length, data);
    }
  }

  /** The spliced bytes start with the prefix, the data and the moved tail. */
  lemma SplicedData(c: seq<Byte>, offset: nat, length: nat, data: seq<Byte>)
    requires offset <= length && length + |data| <= |c|
    ensures Spliced(c, offset, length, data)[..length + |data|]
      == c[..length][..offset] + data + c[..length][offset..]
  {
    assert c[..length][..offset] == c[..offset];
    assert c[..length][offset..] == c[offset..length];
  }

  /** Insert at the end is append. */
  lemma InsertAtEndIsAppend(s: BufferState, data: seq<Byte>)
    requires Valid(s)
    ensures Insert(s, s.length, data) == Append(s, data)
  {
  }

  /** Delete removes exactly the bytes in the range. */
  lemma DeleteSpec(s: BufferState, offset: nat, dataLen: nat)
    requires Valid(s) && offset + dataLen <= s.length
    ensures var r := Delete(s, offset, dataLen);
      && Valid(r) && r.length == s.length - dataLen
      && Data(r) == Data(s)[..offset] + Data(s)[offset + dataLen..]
  {
    if dataLen > 0 {
      var r := Delete(s, offset, dataLen);
      var c := s.content;
      assert Data(r) == (c[..offset] + c[offset + dataLen..s.length] + c[s.length - dataLen..])[..s.length - dataLen];
    }
  }

  /** Where the as-written delete stays inside the allocation, the data it
      leaves is the intended one; only the copy's extent is wrong. */
  lemma DeleteAsWrittenData(s: BufferState, offset: nat, dataLen: nat)
    requires Valid(s) && offset + dataLen <= s.length
    requires DeleteAsWritten(s, offset, dataLen).Some?
    ensures Data(DeleteAsWritten(s, offset, dataLen).value) == Data(Delete(s, offset, dataLen))
  {
    if dataLen > 0 {
      var c := s.content;
      var count := s.length - dataLen;
      var w := c[..offset] + c[offset + dataLen..offset + dataLen + count] + c[offset + count..];
      assert w[..count] == c[..offset] + c[offset + dataLen..s.length];
      var v := c[..offset] + c[offset + dataLen..s.length] + c[s.length - dataLen..];
      assert v[..count] == c[..offset] + c[offset + dataLen..s.length];
    }
  }

  /** The delete finding: deleting one byte at offset 2 of a full 4-byte
      buffer copies from bytes 3..5 to 2..4, outside the allocation. */
  lemma DeleteOverrun()
    ensures DeleteAsWritten(BufferState([1, 2, 3, 4], 4, 4, 4, 0), 2, 1).None?
    ensures Data(Delete(BufferState([1, 2, 3, 4], 4, 4, 4, 0), 2, 1)) == [1, 2, 4]
  {
    DeleteSpec(BufferState([1, 2, 3, 4], 4, 4, 4, 0), 2, 1);
    assert [1, 2, 3, 4][..4] == [1, 2, 3, 4];
  }

  /** The insert finding: after the as-written insert grows the buffer, the
      next append zero-fills from the stale capacity and wipes inserted data:
      append [1, 2], insert 9 at 0, append 3 leaves [9, 1, 0, 3]. */
  lemma InsertThenAppendLosesData()
    ensures Data(Append(InsertAsWritten(Append(Empty, [1, 2]), 0, [9]), [3])) == [9, 1, 0, 3]
  {
    var s := Append(Empty, [1, 2]);
    assert s.content == [1, 2] && s.capacity == 2 && s.length == 2;
    var w := InsertAsWritten(s, 0, [9]);
    assert w.content == [9, 1, 2] && w.capacity == 2 && w.length == 3;
    var a := Alloc(w, 2, false);
    assert a.content == [9, 1, 0, 0];
  }

  /** With the corrected insert the same calls leave [9, 1, 2, 3]. */
  lemma InsertThenAppendKeepsData()
    ensures Data(Append(Insert(Append(Empty, [1, 2]), 0, [9]), [3])) == [9, 1, 2, 3]
  {
    var s := Append(Empty, [1, 2]);
    AppendSpec(Empty, [1, 2]);
    InsertSpec(s, 0, [9]);
    AppendSpec(Insert(s, 0, [9]), [3]);
  }

  lemma ClearSpec(s: BufferState)
    requires Valid(s)
    ensures Valid(Clear(s)) && Data(Clear(s)) == [] && IsClean(Clear(s))
  {
  }

  /** Every operation of length zero leaves the buffer as it was. */
  lemma ZeroLengthChangesNothing(s: BufferState, offset: nat, asData: bool)
    requires Valid(s) && offset <= s.length
    ensures Alloc(s, 0, asData) == s && Append(s, []) == s && Insert(s, offset, []) == s
    ensures Update(s, offset, []) == s && Delete(s, offset, 0) == s
  {
  }
}

/** The buffer object: each method applies the matching state function in place. */
module DynamicBufferObject {
  import DB = DynamicBuffer
  type Byte = DB.Byte


  class Buffer {
    var content: seq<Byte>
    var capacity: nat
    var length: nat
    var dirtyMin: nat
    var dirtyMax: nat

    function State(): DB.BufferState
      reads this
    {
      DB.BufferState(content, capacity, length, dirtyMin, dirtyMax)
    }

    ghost predicate Valid()
      reads this
    {
      DB.Valid(State())
    }

    /** xpl_dynamic_buffer_new: everything zero. */
    constructor ()
      ensures State() == DB.Empty && Valid() && DB.IsClean(State())
    {
      content, capacity, length, dirtyMin, dirtyMax := [], 0, 0, 0, 0;
    }

    method Alloc(dataLen: nat, asData: bool)
      requires Valid()
      modifies this
      ensures State() == DB.Alloc(old(State()), dataLen, asData) && Valid()
    {
      DB.AllocSpec(State(), dataLen, asData);
      if dataLen == 0 {
        return;
      }
      var c := DB.Realloc(content, capacity + dataLen);
      content := c[..capacity] + DB.Zeros(dataLen);
      capacity := capacity + dataLen;
      if asData {
        length := length + dataLen;
        dirtyMax := DB.Max(dirtyMax, length);
      }
    }

    method Append(data: seq<Byte>)
      requires Valid()
      modifies this
      ensures State() == DB.Append(old(State()), data) && Valid()
    {
      DB.AppendSpec(State(), data);
      if |data| == 0 {
        return;
      }
      if length + |data| > capacity {
        Alloc(length + |data| - capacity, false);
      }
      content := content[..length] + data + content[length + |data|..];
      dirtyMin := DB.Min(dirtyMin, length);
      length := length + |data|;
      dirtyMax := DB.Max(dirtyMax, length);
    }

    method Insert(offset: nat, data: seq<Byte>)
      requires Valid() && offset <= length
      modifies this
      ensures State() == DB.Insert(old(State()), offset, data) && Valid()
    {
      DB.InsertSpec(State(), offset, data);
      if |data| == 0 {
        return;
      }
      if offset == length {
        Append(data);
        return;
      }
      var newlen := length + |data|;
      if newlen > capacity {
        content := DB.Realloc(content, newlen);
        capacity := newlen;
      }
      content := DB.Spliced(content, offset, length, data);
      dirtyMin := DB.Min(dirtyMin, offset);
      length := newlen;
      dirtyMax := DB.Max(dirtyMax, length);
    }

    method Delete(offset: nat, dataLen: nat)
      requires Valid() && offset + dataLen <= length
      modifies this
      ensures State() == DB.Delete(old(State()), offset, dataLen) && Valid()
    {
      DB.DeleteSpec(State(), offset, dataLen);
      if dataLen == 0 {
        return;
      }
      content := content[..offset] + content[offset + dataLen..length] + content[length - dataLen..];
      dirtyMax := DB.Max(dirtyMax, length);
      length := length - dataLen;
      dirtyMin := DB.Min(dirtyMin, offset);
    }

    method Update(offset: nat, data: seq<Byte>)
      requires Valid() && offset + |data| <= length
      modifies this
      ensures State() == DB.Update(old(State()), offset, data) && Valid()
    {
      if |data| == 0 {
        return;
      }
      content := content[..offset] + data + content[offset + |data|..];
      dirtyMin := DB.Min(dirtyMin, offset);
      dirtyMax := DB.Max(dirtyMax, offset + |data|);
    }

    method Clear()
      modifies this
      ensures State() == DB.Clear(old(State()))
    {
      length := 0;
      MarkClean();
    }

    method MarkClean()
      modifies this
      ensures State() == DB.MarkClean(old(State()))
    {
      dirtyMin := length;
      dirtyMax := 0;
    }

    function IsClean(): (clean: bool)
      reads this
      ensures clean <==> DB.IsClean(State())
    {
      dirtyMax == 0
    }
  }
}
