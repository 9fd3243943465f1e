// The GPU buffer object of src-xpl/xpl_bo.c: a client-side dynamic buffer,
// a dirty state that decides how the next commit uploads it, and the
// server-side copy that the commit writes. The GL calls are modelled only by
// their effect on the server copy.

module BufferObjectState {
  import DB = DynamicBuffer
  import DBO = DynamicBufferObject

  type Byte = DB.Byte

  /** enum xpl_bo_dirty_state. */
  datatype DirtyState = Empty | Create | Clean | PartialUpdate

  /** A buffer object: its dirty state, its client data and what the server holds. */
  datatype Bo = Bo(dirty: DirtyState, client: DB.BufferState, server: seq<Byte>)

  /** xpl_bo_new: empty state, a fresh client buffer, nothing on the server. */
  const New := Bo(Empty, DB.Empty, [])

  /** buffer_mark_dirty: a never-uploaded buffer needs a full upload, an
      uploaded one a partial one; a dirty state stays as it is. */
  function MarkDirty(d: DirtyState): (r: DirtyState)
    ensures r == Create || r == PartialUpdate
    ensures r == PartialUpdate <==> d == Clean || d == PartialUpdate
  {
    match d
    case Empty => Create
    case Clean => PartialUpdate
    case _ => d
  }

  /** What a commit leaves on the server, with the corrected upload source
      content + dirty_range_min for a partial update. A partial update that
      does not fit the server buffer fails in GL and changes nothing. */
  function Upload(b: Bo): seq<Byte>
    requires DB.Valid(b.client)
  {
    var c := b.client;
    match b.dirty
    case Create => DB.Data(c)
    case PartialUpdate =>
      if c.dirtyMin <= c.dirtyMax <= |b.server| && c.dirtyMax <= c.length then
        b.server[..c.dirtyMin] + c.content[c.dirtyMin..c.dirtyMax] + b.server[c.dirtyMax..]
      else b.server
    case _ => b.server
  }

  /** The partial upload as written: it sends dirty_range_max -
      dirty_range_min bytes from the start of the content, not from
      dirty_range_min. */
  function UploadAsWritten(b: Bo): seq<Byte>
    requires DB.Valid(b.client)
  {
    var c := b.client;
    match b.dirty
    case Create => DB.Data(c)
    case PartialUpdate =>
      if c.dirtyMin <= c.dirtyMax <= |b.server| && c.dirtyMax <= c.length then
        b.server[..c.dirtyMin] + c.content[..c.dirtyMax - c.dirtyMin] + b.server[c.dirtyMax..]
      else b.server
    case _ => b.server
  }

  /** xpl_bo_commit: upload, then the object and its client data are clean. */
  function Commit(b: Bo): (r: Bo)
    requires DB.Valid(b.client)
    ensures r.dirty == Clean && DB.IsClean(r.client) && DB.Valid(r.client)
    ensures DB.Data(r.client) == DB.Data(b.client)
  {
    Bo(Clean, DB.MarkClean(b.client), Upload(b))
  }

  function CommitAsWritten(b: Bo): (r: Bo)
    requires DB.Valid(b.client)
    ensures r.dirty == Clean && DB.IsClean(r.client)
  {
    Bo(Clean, DB.MarkClean(b.client), UploadAsWritten(b))
  }

  /** xpl_bo_append, xpl_bo_clear and xpl_bo_delete resize the data, so the
      next commit recreates the server buffer. */
  function Append(b: Bo, data: seq<Byte>): (r: Bo)
    requires DB.Valid(b.client)
    ensures DB.Valid(r.client) && r.dirty == Create && DB.Data(r.client) == DB.Data(b.client) + data
  {
    DB.AppendSpec(b.client, data);
    b.(dirty := Create, client := DB.Append(b.client, data))
  }

  function Clear(b: Bo): (r: Bo)
    requires DB.Valid(b.client)
    ensures DB.Valid(r.client) && r.dirty == Create && DB.Data(r.client) == []
  {
    b.(dirty := Create, client := DB.Clear(b.client))
  }

  function Delete(b: Bo, offset: nat, dataLen: nat): (r: Bo)
    requires DB.Valid(b.client) && offset + dataLen <= b.client.length
    ensures r.dirty == Create && DB.Valid(r.client)
    ensures DB.Data(r.client) == DB.Data(b.client)[..offset] + DB.Data(b.client)[offset + dataLen..]
  {
    DB.DeleteSpec(b.client, offset, dataLen);
    b.(dirty := Create, client := DB.Delete(b.client, offset, dataLen))
  }

  /** xpl_bo_update: overwrite in place; a partial upload suffices. */
  function Update(b: Bo, offset: nat, data: seq<Byte>): (r: Bo)
    requires DB.Valid(b.client) && offset + |data| <= b.client.length
    ensures r.dirty == MarkDirty(b.dirty) && DB.Valid(r.client)
    ensures DB.Data(r.client) == DB.Data(b.client)[..offset] + data + DB.Data(b.client)[offset + |data|..]
  {
    DB.UpdateSpec(b.client, offset, data);
    b.(dirty := MarkDirty(b.dirty), client := DB.Update(b.client, offset, data))
  }

  /** xpl_bo_insert as written: it marks dirty, which from clean asks for a
      partial update although the data has grown. The client-side insert
      underneath is the corrected DynamicBuffer.Insert, so the finding shown
      here is the lost upload alone. */
  function InsertAsWritten(b: Bo, offset: nat, data: seq<Byte>): (r: Bo)
    requires DB.Valid(b.client) && offset <= b.client.length
    ensures DB.Valid(r.client)
  {
    DB.InsertSpec(b.client, offset, data);
    b.(dirty := MarkDirty(b.dirty), client := DB.Insert(b.client, offset, data))
  }

  /** xpl_bo_alloc as written: like insert it grows the data but only marks dirty. */
  function AllocAsWritten(b: Bo, dataLen: nat): (r: Bo)
    requires DB.Valid(b.client)
    ensures DB.Valid(r.client)
  {
    DB.AllocSpec(b.client, dataLen, true);
    b.(dirty := MarkDirty(b.dirty), client := DB.Alloc(b.client, dataLen, true))
  }

  /** Insert corrected: growing the data needs a full upload, as for append. */
  function Insert(b: Bo, offset: nat, data: seq<Byte>): (r: Bo)
    requires DB.Valid(b.client) && offset <= b.client.length
    ensures r.dirty == Create && DB.Valid(r.client)
    ensures DB.Data(r.client) == DB.Data(b.client)[..offset] + data + DB.Data(b.client)[offset..]
  {
    DB.InsertSpec(b.client, offset, data);
    b.(dirty := Create, client := DB.Insert(b.client, offset, data))
  }

  /** Alloc corrected: the data grows by dataLen bytes, then a full upload. */
  function Alloc(b: Bo, dataLen: nat): (r: Bo)
    requires DB.Valid(b.client)
    ensures r.dirty == Create && DB.Valid(r.client) && r.client.length == b.client.length + dataLen
    ensures DB.Data(r.client) == DB.Data(b.client) + r.client.content[b.client.length..b.client.length + dataLen]
    ensures b.client.length == b.client.capacity ==> DB.Data(r.client) == DB.Data(b.client) + DB.Zeros(dataLen)
  {
    DB.AllocAsDataSpec(b.client, dataLen);
    b.(dirty := Create, client := DB.Alloc(b.client, dataLen, true))
  }

  /** xpl_bo_clone: a new object holding the source's client data, committed. */
  function Clone(source: Bo): (r: Bo)
    requires DB.Valid(source.client)
    ensures DB.Valid(r.client) && r.dirty == Clean && DB.Data(r.client) == DB.Data(source.client)
  {
    Commit(Append(New, DB.Data(source.client)))
  }

  // ---- the invariant that ties the server copy to the client data

  /** What each dirty state promises about the server copy. */
  ghost predicate Consistent(b: Bo)
  {
    var c := b.client;
    && DB.Valid(c)
    && match b.dirty
       case Empty => c.length == 0 && b.server == []
       case Create => true
       case Clean => b.server == DB.Data(c) && c.dirtyMax == 0 && c.dirtyMin == c.length
       case PartialUpdate =>
         && |b.server| == c.length && c.dirtyMin <= c.length && c.dirtyMax <= c.length
         && forall i :: 0 <= i < c.length && !(c.dirtyMin <= i < c.dirtyMax) ==> b.server[i] == c.content[i]
  }

  lemma NewIsConsistent()
    ensures Consistent(New) && New.dirty == Empty
  {
  }

  /** A commit from any consistent state leaves the server holding exactly the client data. */
  lemma CommitSynchronises(b: Bo)
    requires Consistent(b)
    ensures Commit(b).server == DB.Data(b.client)
    ensures Consistent(Commit(b))
  {
    var c := b.client;
    if b.dirty == PartialUpdate && c.dirtyMin <= c.dirtyMax {
      var s := Commit(b).server;
      assert |s| == c.length;
      forall i | 0 <= i < c.length
        ensures s[i] == c.content[i]
      {
        if i < c.dirtyMin {
          assert s[i] == b.server[i];
        } else if i < c.dirtyMax {
          assert s[i] == c.content[i];
        } else {
          assert s[i] == b.server[i];
        }
      }
    } else if b.dirty == PartialUpdate {
      assert b.server == DB.Data(c);
    }
  }

  /** Update keeps the promise: every byte it changes lies in the dirty range. */
  lemma UpdateKeepsConsistent(b: Bo, offset: nat, data: seq<Byte>)
    requires Consistent(b) && offset + |data| <= b.client.length
    ensures Consistent(Update(b, offset, data))
  {
    var r := Update(b, offset, data);
    var c := b.client;
    var rc := r.client;
    if b.dirty == Clean || b.dirty == PartialUpdate {
      forall i | 0 <= i < rc.length && !(rc.dirtyMin <= i < rc.dirtyMax)
        ensures r.server[i] == rc.content[i]
      {
        assert DB.Data(rc)[i] == rc.content[i];
        assert DB.Data(c)[i] == c.content[i];
        if |data| > 0 {
          assert !(offset <= i < offset + |data|);
          assert DB.Data(rc)[i] == DB.Data(c)[i];
        }
      }
    }
  }

  /** The operations that resize the data keep the promise trivially. */
  lemma ResizingKeepsConsistent(b: Bo, offset: nat, dataLen: nat, data: seq<Byte>)
    requires Consistent(b)
    ensures Consistent(Append(b, data)) && Consistent(Clear(b)) && Consistent(Alloc(b, dataLen))
    ensures offset <= b.client.length ==> Consistent(Insert(b, offset, data))
    ensures offset + dataLen <= b.client.length ==> Consistent(Delete(b, offset, dataLen))
  {
  }

  /** Clone holds the source's data on both sides. */
  lemma CloneSynchronised(source: Bo)
    requires DB.Valid(source.client)
    ensures Clone(source).server == DB.Data(source.client)
    ensures Consistent(Clone(source))
  {
    var a := Append(New, DB.Data(source.client));
    CommitSynchronises(a);
  }

  /** The upload-source finding: append [1, 2, 3, 4], commit, overwrite byte
      2 with 9 and commit again. As written the server ends with [1, 2, 1, 4]
      (byte 0 uploaded to offset 2); the corrected upload gives [1, 2, 9, 4]. */
  lemma PartialUploadFromWrongSource()
    ensures var b := Update(Commit(Append(New, [1, 2, 3, 4])), 2, [9]);
      && CommitAsWritten(b).server == [1, 2, 1, 4]
      && Commit(b).server == [1, 2, 9, 4]
  {
    var a := Append(New, [1, 2, 3, 4]);
    assert a.client.content == [1, 2, 3, 4] && a.client.length == 4;
    var c := Commit(a);
    assert c.server == [1, 2, 3, 4];
    var b := Update(c, 2, [9]);
    assert b.client.content == [1, 2, 9, 4] && b.client.dirtyMin == 2 && b.client.dirtyMax == 3;
    assert b.dirty == PartialUpdate;
  }

  /** The buffer after append [1, 2] and commit. */
  lemma CommittedPair()
    ensures var c := Commit(Append(New, [1, 2]));
      && c.server == [1, 2] && c.client.content == [1, 2] && c.client.length == 2
      && c.client.capacity == 2 && DB.Valid(c.client)
  {
    var a := Append(New, [1, 2]);
    assert a.client.content == [1, 2] && a.client.length == 2;
  }

  /** The growth finding: after append [1, 2] and commit, insert 9 at 0 (or
      alloc one more byte) asks only for a partial update, which cannot grow
      the server buffer, so a commit leaves it at [1, 2]. */
  lemma GrowingUpdateIsLost()
    ensures var c := Commit(Append(New, [1, 2]));
      && CommitAsWritten(InsertAsWritten(c, 0, [9])).server == [1, 2]
      && Commit(InsertAsWritten(c, 0, [9])).server == [1, 2]
      && Commit(AllocAsWritten(c, 1)).server == [1, 2]
  {
    CommittedPair();
    var c := Commit(Append(New, [1, 2]));
    var i := InsertAsWritten(c, 0, [9]);
    assert i.client.length == 3 && i.dirty == PartialUpdate;
    var l := AllocAsWritten(c, 1);
    assert l.client.length == 3 && l.dirty == PartialUpdate;
  }

  /** The corrected insert recreates the server buffer at the new size. */
  lemma GrowingInsertIsKept()
    ensures Commit(Insert(Commit(Append(New, [1, 2])), 0, [9])).server == [9, 1, 2]
  {
    var c := Commit(Append(New, [1, 2]));
    CommittedPair();
    assert DB.Data(c.client) == [1, 2] by {
      assert c.client.content[..c.client.length] == [1, 2];
    }
    InsertUploadsAll(c, 0, [9]);
    assert [1, 2][..0] + [9] + [1, 2][0..] == [9, 1, 2];
  }

  /** So does the corrected alloc. */
  lemma GrowingAllocIsKept()
    ensures Commit(Alloc(Commit(Append(New, [1, 2])), 1)).server == [1, 2, 0]
  {
    var c := Commit(Append(New, [1, 2]));
    CommittedPair();
    assert DB.Data(c.client) == [1, 2] by {
      assert c.client.content[..c.client.length] == [1, 2];
    }
    AllocOneAfterPair(c);
  }

  /** One zero byte allocated after the data [1, 2] reaches the server. */
  lemma AllocOneAfterPair(c: Bo)
    requires DB.Valid(c.client) && c.client.length == c.client.capacity && DB.Data(c.client) == [1, 2]
    ensures Commit(Alloc(c, 1)).server == [1, 2, 0]
  {
    AllocUploadsAll(c, 1);
    assert DB.Zeros(1) == [0];
  }

  /** A commit after the corrected insert puts the whole new data on the server. */
  lemma InsertUploadsAll(b: Bo, offset: nat, data: seq<Byte>)
    requires DB.Valid(b.client) && offset <= b.client.length
    ensures Commit(Insert(b, offset, data)).server == DB.Data(b.client)[..offset] + data + DB.Data(b.client)[offset..]
  {
  }

  /** A commit after the corrected alloc of a full buffer adds the zeros on the server. */
  lemma AllocUploadsAll(b: Bo, dataLen: nat)
    requires DB.Valid(b.client) && b.client.length == b.client.capacity
    ensures Commit(Alloc(b, dataLen)).server == DB.Data(b.client) + DB.Zeros(dataLen)
  {
  }
}

/** The buffer object itself: each method applies the matching state function. */
module BufferObjects {
  import DB = DynamicBuffer
  import DBO = DynamicBufferObject
  import BS = BufferObjectState

  type Byte = DB.Byte

  class BufferObject {
    var dirty: BS.DirtyState
    var client: DBO.Buffer
    var server: seq<Byte>

    function Snapshot(): BS.Bo
      reads this, client
    {
      BS.Bo(dirty, client.State(), server)
    }

    ghost predicate Valid()
      reads this, client
    {
      DB.Valid(client.State())
    }

    constructor ()
      ensures Snapshot() == BS.New && Valid() && fresh(client)
    {
      dirty := BS.Empty;
      client := new DBO.Buffer();
      server := [];
    }

    method Commit()
      requires Valid()
      modifies this, client
      ensures client == old(client) && Snapshot() == BS.Commit(old(Snapshot())) && Valid()
    {
      server := BS.Upload(Snapshot());
      dirty := BS.Clean;
      client.MarkClean();
    }

    method Append(data: seq<Byte>)
      requires Valid()
      modifies this, client
      ensures client == old(client) && Snapshot() == BS.Append(old(Snapshot()), data) && Valid()
    {
      dirty := BS.Create;
      client.Append(data);
    }

    method Clear()
      requires Valid()
      modifies this, client
      ensures client == old(client) && Snapshot() == BS.Clear(old(Snapshot())) && Valid()
    {
      client.Clear();
      dirty := BS.Create;
    }

    method Delete(offset: nat, dataLen: nat)
      requires Valid() && offset + dataLen <= client.length
      modifies this, client
      ensures client == old(client) && Snapshot() == BS.Delete(old(Snapshot()), offset, dataLen) && Valid()
    {
      dirty := BS.Create;
      client.Delete(offset, dataLen);
    }

    method Update(offset: nat, data: seq<Byte>)
      requires Valid() && offset + |data| <= client.length
      modifies this, client
      ensures client == old(client) && Snapshot() == BS.Update(old(Snapshot()), offset, data) && Valid()
    {
      dirty := BS.MarkDirty(dirty);
      client.Update(offset, data);
    }

    method Insert(offset: nat, data: seq<Byte>)
      requires Valid() && offset <= client.length
      modifies this, client
      ensures client == old(client) && Snapshot() == BS.Insert(old(Snapshot()), offset, data) && Valid()
    {
      dirty := BS.Create;
      client.Insert(offset, data);
    }

    method Alloc(dataLen: nat)
      requires Valid()
      modifies this, client
      ensures client == old(client) && Snapshot() == BS.Alloc(old(Snapshot()), dataLen) && Valid()
    {
      dirty := BS.Create;
      client.Alloc(dataLen, true);
    }

    /** xpl_bo_clone. */
    static method Clone(source: BufferObject) returns (bo: BufferObject)
      requires source.Valid()
      ensures fresh(bo) && fresh(bo.client) && bo.Valid()
      ensures bo.Snapshot() == BS.Clone(source.Snapshot())
    {
      bo := new BufferObject();
      bo.Append(DB.Data(source.client.State()));
      bo.Commit();
    }
  }
}
