// The rendered-text cache of src-xpl/xpl_text_cache.c: a frame cache keyed
// by a hash of the markup's key and the text. A miss builds a new entry in
// this_frame. The text buffer the entry renders into, the wide-character
// copy and the font manager are not part of this model.

module TextCache {
  import opened FrameCache

  /** xpl_hashi and xpl_hashs: not part of this model, so parameters. */
  type HashInt = (int, int) -> int
  type HashString = (string, int) -> int

  /** XPL_HASH_INIT. */
  const HashInit: int := 17

  /** text_cache_key: the markup key chained into the hash first, then the text. */
  function Key(markupKey: int, text: string, hashi: HashInt, hashs: HashString): int
  {
    hashs(text, hashi(markupKey, HashInit))
  }

  /** A table entry: its key, the markup key and text it was built from, and
      the serial number of its allocation, standing for the cached value. */
  datatype Entry = Entry(key: int, markupKey: int, text: string, serial: nat)

  /** xpl_text_cache_get: a fetch, and on a miss a new entry, made with the
      given serial, added to this_frame. */
  function Got(t: Tables<Entry>, markupKey: int, text: string, hashi: HashInt, hashs: HashString, serial: nat): (Tables<Entry>, Entry)
  {
    var key := Key(markupKey, text, hashi, hashs);
    var (t2, found) := Fetch(t, key);
    if found.Some? then (t2, found.value)
    else
      var e := Entry(key, markupKey, text, serial);
      (Added(t2, key, e), e)
  }

  /** A miss builds an entry for this markup and text, under their key, in this_frame. */
  lemma MissCreates(t: Tables<Entry>, markupKey: int, text: string, hashi: HashInt, hashs: HashString, serial: nat)
    requires Disjoint(t) && Key(markupKey, text, hashi, hashs) !in Held(t)
    ensures var (t2, e) := Got(t, markupKey, text, hashi, hashs, serial);
      && e == Entry(Key(markupKey, text, hashi, hashs), markupKey, text, serial)
      && Disjoint(t2) && Held(t2) == Held(t)[e.key := e] && t2.thisFrame[e.key] == e
  {
    FetchFinds(t, Key(markupKey, text, hashi, hashs));
    AddedAfterMiss(t, Key(markupKey, text, hashi, hashs), Entry(Key(markupKey, text, hashi, hashs), markupKey, text, serial));
  }

  /** A hit, in either table, hands back the held entry and loses nothing. */
  lemma HitReturnsHeld(t: Tables<Entry>, markupKey: int, text: string, hashi: HashInt, hashs: HashString, serial: nat)
    requires Disjoint(t) && Key(markupKey, text, hashi, hashs) in Held(t)
    ensures var (t2, e) := Got(t, markupKey, text, hashi, hashs, serial);
      && e == Held(t)[Key(markupKey, text, hashi, hashs)]
      && Disjoint(t2) && Held(t2) == Held(t) && Key(markupKey, text, hashi, hashs) in t2.thisFrame
  {
    FetchFinds(t, Key(markupKey, text, hashi, hashs));
    FetchMovesOnly(t, Key(markupKey, text, hashi, hashs));
  }

  /** Asking twice in one frame gives the same entry and builds nothing more. */
  lemma GotTwice(t: Tables<Entry>, markupKey: int, text: string, hashi: HashInt, hashs: HashString, serial: nat, serial2: nat)
    requires Disjoint(t)
    ensures var (t2, e) := Got(t, markupKey, text, hashi, hashs, serial);
      Got(t2, markupKey, text, hashi, hashs, serial2) == (t2, e)
  {
    var key := Key(markupKey, text, hashi, hashs);
    FetchTwice(t, key);
    if Fetch(t, key).1 == None {
      AddedAfterMiss(t, key, Entry(key, markupKey, text, serial));
    }
  }

  /** The table looks only at the key: once a text is cached, another text
      whose key collides with it is answered with the first text's entry. */
  lemma CollidingTextsShareEntry(t: Tables<Entry>, m1: int, t1: string, m2: int, t2: string,
                                 hashi: HashInt, hashs: HashString, serial: nat, serial2: nat)
    requires Disjoint(t) && Key(m1, t1, hashi, hashs) == Key(m2, t2, hashi, hashs)
    ensures var (c, e) := Got(t, m1, t1, hashi, hashs, serial);
      Got(c, m2, t2, hashi, hashs, serial2).1 == e
  {
    GotTwice(t, m1, t1, hashi, hashs, serial, serial2);
  }
}

/** The cache object: its two tables and the allocation counter. */
module TextCacheObject {
  import opened FrameCache
  import opened TextCache

  class Cache {
    var lastFrame: map<int, Entry>
    var thisFrame: map<int, Entry>
    /** How many entries have been built; the next entry's serial. */
    var built: nat

    ghost predicate Valid()
      reads this
    {
      Disjoint(Tables(lastFrame, thisFrame))
    }

    function Current(): Tables<Entry>
      reads this
    {
      Tables(lastFrame, thisFrame)
    }

    /** xpl_text_cache_new: two empty tables. */
    constructor ()
      ensures Valid() && Current() == Tables(map[], map[]) && built == 0
    {
      lastFrame, thisFrame, built := map[], map[], 0;
    }

    /** xpl_text_cache_get, with the markup given by its font_cache_key. */
    method Get(markupKey: int, text: string, hashi: HashInt, hashs: HashString) returns (e: Entry)
      requires Valid()
      modifies this
      ensures Valid()
      ensures (Current(), e) == Got(old(Current()), markupKey, text, hashi, hashs, old(built))
      ensures built == if Key(markupKey, text, hashi, hashs) in Held(old(Current())) then old(built) else old(built) + 1
    {
      var key := hashs(text, hashi(markupKey, HashInit));
      FetchFinds(Current(), key);
      FetchMovesOnly(Current(), key);
      if key in thisFrame {
        return thisFrame[key];
      }
      if key in lastFrame {
        e := lastFrame[key];
        lastFrame := lastFrame - {key};
        thisFrame := thisFrame[key := e];
        return;
      }
      AddedAfterMiss(Current(), key, Entry(key, markupKey, text, built));
      e := Entry(key, markupKey, text, built);
      built := built + 1;
      thisFrame := thisFrame[key := e];
    }

    /** xpl_text_cache_advance_frame. */
    method AdvanceFrame()
      requires Valid()
      modifies this
      ensures Valid() && Current() == Advanced(old(Current())) && built == old(built)
    {
      lastFrame := thisFrame;
      thisFrame := map[];
    }
  }
}
