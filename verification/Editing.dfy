/** Backspace editing, shared by the command line editor and by text entry. */
module Editing {
  datatype Keystroke<+T> = Erase | Type(value: T)

  /** Left fold: what a buffer holds after the keys, an erase on an empty buffer being ignored. */
  function Edited<T>(keys: seq<Keystroke<T>>): seq<T> {
    if keys == [] then []
    else Strike(Edited(keys[..|keys| - 1]), keys[|keys| - 1])
  }

  function Strike<T>(text: seq<T>, key: Keystroke<T>): seq<T> {
    match key
    case Erase => if text == [] then [] else text[..|text| - 1]
    case Type(v) => text + [v]
  }

  /**
   * Reference reading of an edited line, from its end: every erase cancels the closest earlier
   * typed key that no other erase cancels; pending erases still look for a key to cancel.
   */
  function Survivors<T>(keys: seq<Keystroke<T>>, pending: nat): seq<T> {
    if keys == [] then []
    else
      var before := keys[..|keys| - 1];
      match keys[|keys| - 1]
      case Erase => Survivors(before, pending + 1)
      case Type(v) => if pending > 0 then Survivors(before, pending - 1) else Survivors(before, 0) + [v]
  }

  function DropLast<T>(text: seq<T>, n: nat): seq<T> {
    if n >= |text| then [] else text[..|text| - n]
  }

  lemma {:induction false} SurvivorsAreEdited<T>(keys: seq<Keystroke<T>>, pending: nat)
    ensures Survivors(keys, pending) == DropLast(Edited(keys), pending)
    decreases |keys|
  {
    if keys == [] {
    } else {
      var before := keys[..|keys| - 1];
      match keys[|keys| - 1] {
        case Erase => SurvivorsAreEdited(before, pending + 1);
        case Type(v) =>
          SurvivorsAreEdited(before, if pending > 0 then pending - 1 else 0);
      }
    }
  }

  /** Folding the keys is cancelling them from the end. */
  lemma EditingCancelsFromTheEnd<T>(keys: seq<Keystroke<T>>)
    ensures Edited(keys) == Survivors(keys, 0)
  {
    SurvivorsAreEdited(keys, 0);
  }

  lemma EditedSnoc<T>(keys: seq<Keystroke<T>>, key: Keystroke<T>)
    ensures Edited(keys + [key]) == Strike(Edited(keys), key)
  {
    assert (keys + [key])[..|keys|] == keys;
  }
}
