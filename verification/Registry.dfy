/**
 * The command bank: slots for single-letter, ampersand, dial and S commands, and the tree of
 * extended commands; registration and the dispatch of one request.
 */
module Registry {
  import opened Ctype
  import opened NameOrder
  import opened CommandTree

  const NAME_MAX: nat := 15
  const MAX_S: nat := 25

  datatype Slot =
    | Alpha(letter: char)
    | Ampersand(letter: char)
    | Dialing(voice: bool)
    | SParameter(number: nat)
    | Extended(lowered: string)

  type Contents = map<Slot, Callbacks>

  function Get(m: Contents, slot: Slot): Option<Callbacks> {
    if slot in m then Some(m[slot]) else None
  }

  function LowerAll(s: string): string {
    seq(|s|, i requires 0 <= i < |s| => Lower(s[i]))
  }

  lemma SameIsEqualLowered(a: string, b: string)
    ensures Same(a, b) <==> LowerAll(a) == LowerAll(b)
  {
    if LowerAll(a) == LowerAll(b) {
      forall i | 0 <= i < |a| ensures |a| == |b| && Lower(a[i]) == Lower(b[i]) {
        assert |LowerAll(a)| == |a| && |LowerAll(b)| == |b|;
        assert LowerAll(a)[i] == Lower(a[i]) && LowerAll(b)[i] == Lower(b[i]);
      }
      assert |LowerAll(a)| == |a| && |LowerAll(b)| == |b|;
    }
  }

  // ------------------------------------------------------------------ what registrations amount to

  /** One registration: the slot keeps what it has. */
  function Registered(m: Contents, slot: Slot, callbacks: Callbacks): Contents {
    if slot in m then m else m[slot := callbacks]
  }

  function RegisterAll(m: Contents, events: seq<(Slot, Callbacks)>): Contents
    decreases |events|
  {
    if events == [] then m else RegisterAll(Registered(m, events[0].0, events[0].1), events[1..])
  }

  lemma {:induction false} RegisterAllConcat(m: Contents, a: seq<(Slot, Callbacks)>, b: seq<(Slot, Callbacks)>)
    ensures RegisterAll(m, a + b) == RegisterAll(RegisterAll(m, a), b)
    decreases |a|
  {
    if a == [] {
      assert a + b == b;
    } else {
      assert (a + b)[0] == a[0] && (a + b)[1..] == a[1..] + b;
      RegisterAllConcat(Registered(m, a[0].0, a[0].1), a[1..], b);
    }
  }

  /** The earliest registration of a slot. */
  function FirstFor(events: seq<(Slot, Callbacks)>, slot: Slot): Option<Callbacks> {
    if events == [] then None
    else if events[0].0 == slot then Some(events[0].1)
    else FirstFor(events[1..], slot)
  }

  /** Over any sequence of registrations every slot keeps its first one. */
  lemma {:induction false} FirstRegistrationWins(m: Contents, events: seq<(Slot, Callbacks)>, slot: Slot)
    ensures Get(RegisterAll(m, events), slot) == if slot in m then Some(m[slot]) else FirstFor(events, slot)
    decreases |events|
  {
    if events == [] {
    } else {
      FirstRegistrationWins(Registered(m, events[0].0, events[0].1), events[1..], slot);
    }
  }

  // ------------------------------------------------------------------ the bank

  /** The tree after tsearch, whatever rotations it makes. */
  function Grown(t: Tree, h: Handler, rotations: seq<Rotation>): Tree {
    RotateAll(Tsearch(t, h).0, rotations)
  }

  datatype Status = Done | Already | TooLong | OutOfRange

  class Bank {
    var alpha: array<Option<Callbacks>>
    var ampersand: array<Option<Callbacks>>
    var dial: array<Option<Callbacks>>
    var s: array<Option<Callbacks>>
    var extended: Tree
    ghost var contents: Contents

    ghost predicate ValidSlots()
      reads this, alpha, ampersand, dial, s
    {
      && alpha.Length == 26 && ampersand.Length == 26 && dial.Length == 2 && s.Length == MAX_S + 1
      && alpha != ampersand && alpha != dial && alpha != s && ampersand != dial && ampersand != s && dial != s
      && (forall x :: 0 <= x < 26 ==> alpha[x] == Get(contents, Alpha((x + 65) as char)))
      && (forall x :: 0 <= x < 26 ==> ampersand[x] == Get(contents, Ampersand((x + 65) as char)))
      && (forall x :: 0 <= x < 2 ==> dial[x] == Get(contents, Dialing(x == 1)))
      && (forall x :: 0 <= x <= MAX_S ==> s[x] == Get(contents, SParameter(x)))
    }

    ghost predicate Valid()
      reads this, alpha, ampersand, dial, s
    {
      ValidSlots() && TreeHolds(extended, contents)
    }

    /** at_commands_init, before any registration. */
    constructor ()
      ensures Valid() && contents == map[]
      ensures fresh(alpha) && fresh(ampersand) && fresh(dial) && fresh(s)
    {
      alpha := new Option<Callbacks>[26](_ => None);
      ampersand := new Option<Callbacks>[26](_ => None);
      dial := new Option<Callbacks>[2](_ => None);
      s := new Option<Callbacks>[MAX_S + 1](_ => None);
      extended := Leaf;
      contents := map[];
    }

    method RegisterAlpha(cmd: char, callbacks: Callbacks) returns (r: Status)
      requires Valid() && 'A' <= cmd <= 'Z' && cmd != 'D' && cmd != 'S'
      modifies this`contents, alpha
      ensures Valid() && contents == Registered(old(contents), Alpha(cmd), callbacks)
      ensures r == if Alpha(cmd) in old(contents) then Already else Done
    {
      var x := cmd as int - 65;
      assert (x + 65) as char == cmd;
      if alpha[x].Some? {
        return Already;
      }
      alpha[x] := Some(callbacks);
      contents := contents[Alpha(cmd) := callbacks];
      r := Done;
    }

    method RegisterAmpersand(cmd: char, callbacks: Callbacks) returns (r: Status)
      requires Valid() && 'A' <= cmd <= 'Z'
      modifies this`contents, ampersand
      ensures Valid() && contents == Registered(old(contents), Ampersand(cmd), callbacks)
      ensures r == if Ampersand(cmd) in old(contents) then Already else Done
    {
      var x := cmd as int - 65;
      assert (x + 65) as char == cmd;
      if ampersand[x].Some? {
        return Already;
      }
      ampersand[x] := Some(callbacks);
      contents := contents[Ampersand(cmd) := callbacks];
      r := Done;
    }

    method RegisterDial(voice: bool, callbacks: Callbacks) returns (r: Status)
      requires Valid()
      modifies this`contents, dial
      ensures Valid() && contents == Registered(old(contents), Dialing(voice), callbacks)
      ensures r == if Dialing(voice) in old(contents) then Already else Done
    {
      var x := if voice then 1 else 0;
      if dial[x].Some? {
        return Already;
      }
      dial[x] := Some(callbacks);
      contents := contents[Dialing(voice) := callbacks];
      r := Done;
    }

    method RegisterS(param: nat, callbacks: Callbacks) returns (r: Status)
      requires Valid()
      modifies this`contents, s
      ensures Valid()
      ensures contents == if param > 25 then old(contents)
                          else Registered(old(contents), SParameter(param), callbacks)
      ensures r == if param > 25 then OutOfRange else if SParameter(param) in old(contents) then Already else Done
    {
      if param > MAX_S {
        return OutOfRange;
      }
      if s[param].Some? {
        return Already;
      }
      s[param] := Some(callbacks);
      contents := contents[SParameter(param) := callbacks];
      r := Done;
    }

    /** tsearch adds the handler, and balances the tree by some rotations. */
    method RegisterExtended(name: string, callbacks: Callbacks, rotations: seq<Rotation>) returns (r: Status)
      requires Valid() && NulFree(name)
      modifies this`contents, this`extended
      ensures Valid()
      ensures contents == if |name| >= 15 then old(contents)
                          else Registered(old(contents), Extended(LowerAll(name)), callbacks)
      ensures extended == if |name| >= 15 then old(extended)
                          else Grown(old(extended), Handler(name, callbacks), rotations)
      ensures r == if |name| >= 15 then TooLong
                   else if Extended(LowerAll(name)) in old(contents) then Already else Done
    {
      if |name| >= NAME_MAX {
        return TooLong;
      }
      var h := Handler(name, callbacks);
      TreeRegisters(extended, contents, h);
      var (tree, inserted) := Tsearch(extended, h);
      extended, contents := tree, Registered(contents, Extended(LowerAll(name)), callbacks);
      Reshape(rotations);
      r := if inserted then Done else Already;
    }

    /** Rotations only change the shape of the tree. */
    method Reshape(rotations: seq<Rotation>)
      requires Valid()
      modifies this`extended
      ensures Valid() && extended == RotateAll(old(extended), rotations) && InOrder(extended) == old(InOrder(extended))
    {
      RotationsKeepOrder(extended, rotations);
      extended := RotateAll(extended, rotations);
    }
  }

  // ------------------------------------------------------------------ the tree and the contents

  /** The tree holds exactly the extended commands of the contents, in order. */
  ghost predicate TreeHolds(t: Tree, m: Contents) {
    && AllNulFree(InOrder(t)) && Sorted(InOrder(t))
    && (forall h :: h in InOrder(t) ==> Get(m, Extended(LowerAll(h.name))) == Some(h.callbacks))
    && (forall n :: Extended(n) in m ==> exists h :: h in InOrder(t) && LowerAll(h.name) == n)
  }

  lemma HasIffContained(t: Tree, m: Contents, name: string)
    requires TreeHolds(t, m)
    ensures Has(InOrder(t), name) <==> Extended(LowerAll(name)) in m
  {
    hide Same, LowerAll, Sorted;
    if Has(InOrder(t), name) {
      var i :| 0 <= i < |InOrder(t)| && Same(InOrder(t)[i].name, name);
      SameIsEqualLowered(InOrder(t)[i].name, name);
      assert InOrder(t)[i] in InOrder(t);
    }
    if Extended(LowerAll(name)) in m {
      var h :| h in InOrder(t) && LowerAll(h.name) == LowerAll(name);
      SameIsEqualLowered(h.name, name);
    }
  }

  /** Only extended commands and the order of the tree matter. */
  lemma TreeStillHolds(t: Tree, t': Tree, m: Contents, m': Contents)
    requires TreeHolds(t, m) && InOrder(t') == InOrder(t)
    requires forall n :: Get(m', Extended(n)) == Get(m, Extended(n))
    ensures TreeHolds(t', m')
  {
    forall n | Extended(n) in m' ensures exists h :: h in InOrder(t') && LowerAll(h.name) == n {
      assert Get(m', Extended(n)) == Get(m, Extended(n));
    }
  }

  lemma TreeRegisters(t: Tree, m: Contents, h: Handler)
    requires TreeHolds(t, m) && NulFree(h.name)
    ensures TreeHolds(Tsearch(t, h).0, Registered(m, Extended(LowerAll(h.name)), h.callbacks))
    ensures Tsearch(t, h).1 == (Extended(LowerAll(h.name)) !in m)
  {
    hide LowerAll, Sorted, Has, Tsearch;
    TsearchInsertsOnce(t, h);
    HasIffContained(t, m, h.name);
    var t', m' := Tsearch(t, h).0, Registered(m, Extended(LowerAll(h.name)), h.callbacks);
    if Tsearch(t, h).1 {
      forall i | 0 <= i < |InOrder(t')| ensures NulFree(InOrder(t')[i].name) {
        assert InOrder(t')[i] in InOrder(t');
      }
      forall g | g in InOrder(t') ensures Get(m', Extended(LowerAll(g.name))) == Some(g.callbacks) {
        if g != h {
          assert g in InOrder(t);
        }
      }
      forall n | Extended(n) in m' ensures exists g :: g in InOrder(t') && LowerAll(g.name) == n {
        if n == LowerAll(h.name) {
          assert h in InOrder(t');
        } else {
          var g :| g in InOrder(t) && LowerAll(g.name) == n;
          assert g in InOrder(t');
        }
      }
    }
  }
}
