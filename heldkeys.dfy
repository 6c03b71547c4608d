/** The list of held arrow keys that InputHandler keeps in `game.keys`. */
module HeldKeys {
  import Lists

  const Up: string := "ArrowUp"
  const Down: string := "ArrowDown"
  /** The key the keydown handler treats as the fire button. */
  const Fire: string := " "

  /** What the handlers keep true of the list: each arrow key at most once, nothing else. */
  predicate Valid(keys: seq<string>)
  {
    Lists.NoDuplicates(keys) && forall k :: k in keys ==> k == Up || k == Down
  }

  /** The keydown handler's first branch is taken: an arrow key that is not yet held. */
  predicate Pushes(keys: seq<string>, key: string)
  {
    (key == Up || key == Down) && Lists.IndexOf(keys, key) == -1
  }

  /** The keyup handler: splice the key out at the position indexOf finds, if any. */
  function Release(keys: seq<string>, key: string): seq<string>
  {
    var index := Lists.IndexOf(keys, key);
    if index > -1 then keys[..index] + keys[index + 1..] else keys
  }

  /** A push happens exactly for an arrow key that is absent, and the list stays valid. */
  lemma PushSpec(keys: seq<string>, key: string)
    requires Valid(keys)
    ensures Pushes(keys, key) <==> (key == Up || key == Down) && key !in keys
    ensures Pushes(keys, key) ==> Valid(keys + [key])
  {
    if Pushes(keys, key) {
      Lists.AppendFresh(keys, key);
    }
  }

  /** The selector `k => k == key`, named so that every use denotes the same function. */
  function Is(key: string): string -> bool
  {
    k => k == key
  }

  /** keyup removes exactly one copy of a held key; a key not held leaves the list alone. */
  lemma ReleaseShape(keys: seq<string>, key: string)
    ensures key in keys ==> |Release(keys, key)| == |keys| - 1
    ensures key in keys ==> keys == Release(keys, key)[..Lists.IndexOf(keys, key)] + [key] + Release(keys, key)[Lists.IndexOf(keys, key)..]
    ensures key !in keys ==> Release(keys, key) == keys
  {
    var index := Lists.IndexOf(keys, key);
    if index > -1 {
      assert Release(keys, key) == keys[..index] + keys[index + 1..];
      Lists.RemoveAt(keys, index);
    }
  }

  /** keyup keeps the list valid. */
  lemma ReleaseValid(keys: seq<string>, key: string)
    requires Valid(keys)
    ensures Valid(Release(keys, key))
  {
    var index := Lists.IndexOf(keys, key);
    if index > -1 {
      var r := keys[..index] + keys[index + 1..];
      assert Release(keys, key) == r;
      Lists.RemoveAt(keys, index);
      forall k | k in r ensures k == Up || k == Down {
        assert k in keys;
      }
    }
  }

  /** On a valid list keyup is the same as filtering the key out: the key is gone and the
      other keys keep their order. */
  lemma ReleaseRemoves(keys: seq<string>, key: string)
    requires Valid(keys)
    ensures key !in Release(keys, key)
    ensures Release(keys, key) == Lists.Keep(keys, Is(key))
  {
    var index := Lists.IndexOf(keys, key);
    if index > -1 {
      forall i | 0 <= i < |keys| && i != index ensures !Is(key)(keys[i]) {
        Lists.Distinct(keys, i, index);
      }
      Lists.KeepOne(keys, index, Is(key));
    } else {
      Lists.KeepNone(keys, Is(key));
    }
  }
}
