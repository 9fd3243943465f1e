// The two-generation frame cache behind both the text cache of
// src-xpl/xpl_text_cache.c and the geometry cache of
// src-xpl/xpl_command_render.c. Entries used during a frame sit in the
// this_frame table; advancing the frame destroys whatever is still in the
// last_frame table and swaps the two, so an entry survives exactly as long
// as it is used at least once per frame. Each uthash table is a map from its
// int key.

module FrameCache {

  datatype Option<T> = None | Some(value: T)

  datatype Tables<V> = Tables(lastFrame: map<int, V>, thisFrame: map<int, V>)

  /** No key sits in both tables. */
  ghost predicate Disjoint<V>(t: Tables<V>)
  {
    forall k :: k in t.lastFrame ==> k !in t.thisFrame
  }

  /** Every entry the cache holds, in either table. */
  function Held<V>(t: Tables<V>): map<int, V>
  {
    t.lastFrame + t.thisFrame
  }

  /** The lookup: a hit in this_frame is returned as it is; a hit in
      last_frame is moved to this_frame; a miss changes nothing. */
  function Fetch<V>(t: Tables<V>, key: int): (Tables<V>, Option<V>)
  {
    if key in t.thisFrame then (t, Some(t.thisFrame[key]))
    else if key in t.lastFrame then
      (Tables(t.lastFrame - {key}, t.thisFrame[key := t.lastFrame[key]]), Some(t.lastFrame[key]))
    else (t, None)
  }

  /** HASH_ADD_INT into this_frame. */
  function Added<V>(t: Tables<V>, key: int, v: V): Tables<V>
  {
    Tables(t.lastFrame, t.thisFrame[key := v])
  }

  /** advance_frame: last_frame's entries are destroyed and the tables swap,
      so the emptied table becomes this_frame. */
  function Advanced<V>(t: Tables<V>): Tables<V>
  {
    Tables(t.thisFrame, map[])
  }

  /** A fetch finds exactly what the cache holds under the key. */
  lemma FetchFinds<V>(t: Tables<V>, key: int)
    ensures Fetch(t, key).1 == if key in Held(t) then Some(Held(t)[key]) else None
  {
  }

  /** A fetch only moves an entry between the tables: the cache holds the
      same entries afterwards, still in separate tables, and a found entry
      is now in this_frame. */
  lemma FetchMovesOnly<V>(t: Tables<V>, key: int)
    requires Disjoint(t)
    ensures var t2 := Fetch(t, key).0;
      && Held(t2) == Held(t) && Disjoint(t2)
      && (key in Held(t) ==> key in t2.thisFrame && key !in t2.lastFrame)
  {
    var t2 := Fetch(t, key).0;
    if key !in t.thisFrame && key in t.lastFrame {
      assert forall k :: k in Held(t2) <==> k in Held(t);
      assert forall k :: k in Held(t) ==> Held(t2)[k] == Held(t)[k];
    }
  }

  /** A second fetch of the same key in the same frame is a plain hit. */
  lemma FetchTwice<V>(t: Tables<V>, key: int)
    ensures var (t2, r) := Fetch(t, key);
      Fetch(t2, key) == (t2, r)
  {
  }

  /** Adding after a miss keeps the tables separate, and the next fetch
      finds the new entry. */
  lemma AddedAfterMiss<V>(t: Tables<V>, key: int, v: V)
    requires Disjoint(t) && Fetch(t, key).1 == None
    ensures var t2 := Added(Fetch(t, key).0, key, v);
      Disjoint(t2) && Held(t2) == Held(t)[key := v] && Fetch(t2, key) == (t2, Some(v))
  {
  }

  /** After advancing, the cache holds exactly what this_frame held. */
  lemma AdvancedKeepsThisFrame<V>(t: Tables<V>)
    ensures Held(Advanced(t)) == t.thisFrame && Disjoint(Advanced(t))
  {
  }

  /** An entry used in a frame survives the next advance and is handed back,
      the same entry, in the next frame. */
  lemma UsedSurvivesAdvance<V>(t: Tables<V>, key: int)
    requires Disjoint(t) && key in Held(t)
    ensures Fetch(Advanced(Fetch(t, key).0), key).1 == Fetch(t, key).1 == Some(Held(t)[key])
  {
    FetchMovesOnly(t, key);
  }

  /** An entry not used since the last advance is gone after the next one. */
  lemma UnusedIsEvicted<V>(t: Tables<V>, key: int)
    requires key !in t.thisFrame
    ensures key !in Held(Advanced(t)) && Fetch(Advanced(t), key).1 == None
  {
  }
}
