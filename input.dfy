// The character-listener registry of src-xpl/xpl_input.c. Listeners are kept
// in registration order, the iteration order of the source's hash table.
// Function and context pointers are opaque addresses; the pointer hash is a
// parameter because its definition is not part of this model.

module Input {

  /** XPL_KEY_SPECIAL: key codes above it are the named non-character keys. */
  const KeySpecial: int := 256
  const HashInit: int := 17

  /** xpl_input_is_character as written: true for the codes ABOVE
      XPL_KEY_SPECIAL, which are the named keys (arrows, F-keys, Enter ...). */
  predicate IsCharacterAsWritten(key: int)
  {
    key > KeySpecial
  }

  /** The evidently intended test: a character code lies below the named keys. */
  predicate IsCharacter(key: int)
  {
    key < KeySpecial
  }

  /** The finding: as written a typed letter is not a character and the Enter
      key is, exactly the reverse of the corrected test. */
  lemma LetterIsNotACharacterAsWritten()
    ensures !IsCharacterAsWritten('a' as int) && IsCharacter('a' as int)
    ensures IsCharacterAsWritten(KeySpecial + 38) && !IsCharacter(KeySpecial + 38)
  {
  }

  /** The two tests never agree on a key other than XPL_KEY_SPECIAL itself. */
  lemma CharacterTestsDisagree(key: int)
    requires key != KeySpecial
    ensures IsCharacterAsWritten(key) <==> !IsCharacter(key)
  {
  }

  datatype Listener = Listener(id: int, func: nat, context: nat)

  /** The listener id: the pointer hash of the function, then of the context. */
  function ListenerId(hashp: (nat, int) -> int, func: nat, context: nat): int
  {
    hashp(context, hashp(func, HashInit))
  }

  class CharacterListeners {
    var listeners: seq<Listener>
    /** Whether the platform delivers character events (enable/disable_characters). */
    var charactersEnabled: bool

    ghost predicate Valid()
      reads this
    {
      (forall i, j :: 0 <= i < j < |listeners| ==> listeners[i].id != listeners[j].id)
      && charactersEnabled == (|listeners| > 0)
    }

    predicate Registered(id: int)
      reads this
    {
      exists i :: 0 <= i < |listeners| && listeners[i].id == id
    }

    constructor ()
      ensures Valid() && listeners == [] && !charactersEnabled
    {
      listeners := [];
      charactersEnabled := false;
    }

    /** xpl_input_add_character_listener: the first registration enables
        character delivery; a func/context pair whose id is already registered
        returns that id and adds nothing. */
    method Add(hashp: (nat, int) -> int, func: nat, context: nat) returns (id: int)
      requires Valid()
      modifies this
      ensures Valid()
      ensures id == ListenerId(hashp, func, context) && Registered(id)
      ensures old(Registered(id)) ==> listeners == old(listeners)
      ensures !old(Registered(id)) ==> listeners == old(listeners) + [Listener(id, func, context)]
      ensures charactersEnabled
    {
      if |listeners| == 0 {
        charactersEnabled := true;
      }
      id := ListenerId(hashp, func, context);
      if Registered(id) {
        return;
      }
      listeners := listeners + [Listener(id, func, context)];
      assert listeners[|listeners| - 1].id == id;
    }

    /** xpl_input_remove_character_listener: the id must be registered; removing
        the last listener disables character delivery. */
    method Remove(id: int)
      requires Valid() && Registered(id)
      modifies this
      ensures Valid() && !Registered(id)
      ensures exists k :: (0 <= k < |old(listeners)| && old(listeners)[k].id == id
        && listeners == old(listeners)[..k] + old(listeners)[k + 1..])
      ensures charactersEnabled <==> |listeners| > 0
    {
      var k :| 0 <= k < |listeners| && listeners[k].id == id;
      listeners := listeners[..k] + listeners[k + 1..];
      if |listeners| == 0 {
        charactersEnabled := false;
      }
    }

    /** Dispatching a character: listeners are called in order until one returns
        true. The result is the index of that listener, or |listeners| if none
        accepted the character. */
    method Dispatch(character: int, accepts: (Listener, int) -> bool) returns (taken: nat)
      ensures taken <= |listeners|
      ensures taken < |listeners| ==> accepts(listeners[taken], character)
      ensures forall i :: 0 <= i < taken ==> !accepts(listeners[i], character)
    {
      taken := 0;
      while taken < |listeners|
        invariant taken <= |listeners|
        invariant forall i :: 0 <= i < taken ==> !accepts(listeners[i], character)
      {
        if accepts(listeners[taken], character) {
          return;
        }
        taken := taken + 1;
      }
    }
  }
}
