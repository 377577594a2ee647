/**
 * The search tree of extended commands: filled by tsearch with one comparator, searched by tfind with
 * the other. The C library may give the tree any shape, so everything is stated for every shape.
 */
module CommandTree {
  import opened Ctype
  import opened NameOrder

  /** What a registration provides: which callbacks and context, and which of the optional callbacks. */
  datatype Callbacks = Callbacks(id: nat, hasGet: bool, hasTest: bool)

  /** A registered extended command. */
  datatype Handler = Handler(name: string, callbacks: Callbacks)

  datatype Tree = Leaf | Node(left: Tree, handler: Handler, right: Tree)

  function InOrder(t: Tree): seq<Handler> {
    match t
    case Leaf => []
    case Node(l, h, r) => InOrder(l) + [h] + InOrder(r)
  }

  predicate Sorted(hs: seq<Handler>) {
    forall i, j :: 0 <= i < j < |hs| ==> Less(hs[i].name, hs[j].name)
  }

  predicate AllNulFree(hs: seq<Handler>) {
    forall i :: 0 <= i < |hs| ==> NulFree(hs[i].name)
  }

  predicate AllNames(hs: seq<Handler>) {
    forall i :: 0 <= i < |hs| ==> NulFree(hs[i].name) && IsName(hs[i].name)
  }

  // ------------------------------------------------------------------ the library's operations

  /** tfind with ext_match */
  function Tfind(t: Tree, request: string): Option<Handler> {
    match t
    case Leaf => None
    case Node(l, h, r) =>
      var val := ExtMatch(request, h.name);
      if val == 0 then Some(h) else if val < 0 then Tfind(l, request) else Tfind(r, request)
  }

  /** tsearch with ext_cmp, before any rotation: the new tree, and whether it now holds h itself. */
  function Tsearch(t: Tree, h: Handler): (Tree, bool) {
    match t
    case Leaf => (Node(Leaf, h, Leaf), true)
    case Node(l, g, r) =>
      var val := ExtCmp(h.name, g.name);
      if val == 0 then (t, false)
      else if val < 0 then
        var (l', inserted) := Tsearch(l, h);
        (Node(l', g, r), inserted)
      else
        var (r', inserted) := Tsearch(r, h);
        (Node(l, g, r'), inserted)
  }

  /** A rotation at the node that a path from the root (true to the right) leads to. */
  datatype Rotation = Rotation(path: seq<bool>, toLeft: bool)

  function RotateNode(t: Tree, toLeft: bool): Tree {
    match t
    case Leaf => Leaf
    case Node(l, h, r) =>
      if toLeft then (if r.Node? then Node(Node(l, h, r.left), r.handler, r.right) else t)
      else if l.Node? then Node(l.left, l.handler, Node(l.right, h, r))
      else t
  }

  function RotateAt(t: Tree, path: seq<bool>, toLeft: bool): Tree
    decreases t
  {
    match t
    case Leaf => Leaf
    case Node(l, h, r) =>
      if path == [] then RotateNode(t, toLeft)
      else if path[0] then Node(l, h, RotateAt(r, path[1..], toLeft))
      else Node(RotateAt(l, path[1..], toLeft), h, r)
  }

  /** What a library does to balance the tree. */
  function RotateAll(t: Tree, rotations: seq<Rotation>): Tree
    decreases |rotations|
  {
    if rotations == [] then t else RotateAll(RotateAt(t, rotations[0].path, rotations[0].toLeft), rotations[1..])
  }

  lemma RotateNodeKeepsOrder(t: Tree, toLeft: bool)
    ensures InOrder(RotateNode(t, toLeft)) == InOrder(t)
  {
    if t.Node? && !toLeft && t.left.Node? {
      ConcatFive(InOrder(t.left.left), t.left.handler, InOrder(t.left.right), t.handler, InOrder(t.right));
    } else if t.Node? && toLeft && t.right.Node? {
      ConcatFive(InOrder(t.left), t.handler, InOrder(t.right.left), t.right.handler, InOrder(t.right.right));
    }
  }

  lemma ConcatFive(a: seq<Handler>, h: Handler, b: seq<Handler>, k: Handler, c: seq<Handler>)
    ensures (a + [h] + b) + [k] + c == a + [h] + (b + [k] + c)
  {
  }

  lemma {:induction false} RotateAtKeepsOrder(t: Tree, path: seq<bool>, toLeft: bool)
    ensures InOrder(RotateAt(t, path, toLeft)) == InOrder(t)
    decreases t
  {
    hide RotateNode;
    match t {
      case Leaf =>
      case Node(l, h, r) =>
        if path == [] {
          RotateNodeKeepsOrder(t, toLeft);
        } else if path[0] {
          RotateAtKeepsOrder(r, path[1..], toLeft);
        } else {
          RotateAtKeepsOrder(l, path[1..], toLeft);
        }
    }
  }

  /** Whatever rotations there are, the handlers and their order stay. */
  lemma {:induction false} RotationsKeepOrder(t: Tree, rotations: seq<Rotation>)
    ensures InOrder(RotateAll(t, rotations)) == InOrder(t)
    decreases |rotations|
  {
    hide RotateAt;
    if rotations == [] {
    } else {
      var r := rotations[0];
      RotateAtKeepsOrder(t, r.path, r.toLeft);
      RotationsKeepOrder(RotateAt(t, r.path, r.toLeft), rotations[1..]);
    }
  }

  // ------------------------------------------------------------------ registration

  /** hs has a handler named like name in any case. */
  predicate Has(hs: seq<Handler>, name: string) {
    exists i :: 0 <= i < |hs| && Same(hs[i].name, name)
  }

  lemma SortedSplit(l: seq<Handler>, h: Handler, r: seq<Handler>)
    requires Sorted(l + [h] + r)
    ensures Sorted(l) && Sorted(r)
    ensures forall i :: 0 <= i < |l| ==> Less(l[i].name, h.name)
    ensures forall i :: 0 <= i < |r| ==> Less(h.name, r[i].name)
  {
    var s := l + [h] + r;
    forall i, j | 0 <= i < j < |l| ensures Less(l[i].name, l[j].name) {
      assert s[i] == l[i] && s[j] == l[j];
    }
    forall i, j | 0 <= i < j < |r| ensures Less(r[i].name, r[j].name) {
      assert s[|l| + 1 + i] == r[i] && s[|l| + 1 + j] == r[j];
    }
    forall i | 0 <= i < |l| ensures Less(l[i].name, h.name) {
      assert s[i] == l[i] && s[|l|] == h;
    }
    forall i | 0 <= i < |r| ensures Less(h.name, r[i].name) {
      assert s[|l| + 1 + i] == r[i] && s[|l|] == h;
    }
  }

  lemma SortedJoin(l: seq<Handler>, h: Handler, r: seq<Handler>)
    requires Sorted(l) && Sorted(r)
    requires forall g :: g in l ==> Less(g.name, h.name)
    requires forall g :: g in r ==> Less(h.name, g.name)
    ensures Sorted(l + [h] + r)
  {
    hide Less;
    var s := l + [h] + r;
    forall i, j | 0 <= i < j < |s| ensures Less(s[i].name, s[j].name) {
      if i < |l| < j {
        assert s[i] in l && s[j] in r;
        LessIsTransitive(s[i].name, h.name, s[j].name);
      } else if j <= |l| {
        assert s[i] in l;
      } else {
        assert s[j] in r;
      }
    }
  }

  /** tsearch leaves the tree alone when the name is registered, and otherwise adds h in order. */
  lemma {:induction false} TsearchInsertsOnce(t: Tree, h: Handler)
    requires NulFree(h.name) && AllNulFree(InOrder(t)) && Sorted(InOrder(t))
    ensures var (t', inserted) := Tsearch(t, h);
            inserted == !Has(InOrder(t), h.name)
            && if !inserted then t' == t
               else Sorted(InOrder(t')) && forall g :: g in InOrder(t') <==> g in InOrder(t) || g == h
    decreases t
  {
    hide Less, Same, ExtCmp, Sorted, AllNulFree, NulFree;
    match t {
      case Leaf =>
        SortedJoin([], h, []);
        assert InOrder(Tsearch(t, h).0) == [] + [h] + [];
      case Node(l, g, r) =>
        var a, b := InOrder(l), InOrder(r);
        SortedSplit(a, g, b);
        NulFreeSplit(a, g, b);
        HasSplit(a, g, b, h.name);
        ExtCmpIsLexicographic(h.name, g.name);
        SameIsSymmetric(h.name, g.name);
        if ExtCmp(h.name, g.name) < 0 {
          TsearchInsertsOnce(l, h);
          NotAbove(h.name, g, b);
          if !Has(a, h.name) {
            SortedJoin(InOrder(Tsearch(l, h).0), g, b);
          }
        } else if ExtCmp(h.name, g.name) > 0 {
          TsearchInsertsOnce(r, h);
          NotBelow(h.name, g, a);
          if !Has(b, h.name) {
            SortedJoin(a, g, InOrder(Tsearch(r, h).0));
          }
        } else {
          assert g in InOrder(t);
        }
    }
  }

  lemma NulFreeSplit(l: seq<Handler>, h: Handler, r: seq<Handler>)
    requires AllNulFree(l + [h] + r)
    ensures AllNulFree(l) && NulFree(h.name) && AllNulFree(r)
  {
    hide NulFree;
    var s := l + [h] + r;
    assert s[|l|] == h;
    assert forall i :: 0 <= i < |l| ==> s[i] == l[i];
    assert forall i :: 0 <= i < |r| ==> s[|l| + 1 + i] == r[i];
  }

  lemma HasSplit(l: seq<Handler>, h: Handler, r: seq<Handler>, name: string)
    ensures Has(l + [h] + r, name) <==> Has(l, name) || Same(h.name, name) || Has(r, name)
  {
    hide Same;
    var s := l + [h] + r;
    assert s[|l|] == h;
    assert forall i :: 0 <= i < |l| ==> s[i] == l[i];
    assert forall i :: 0 <= i < |r| ==> s[|l| + 1 + i] == r[i];
    if Has(s, name) {
      var i :| 0 <= i < |s| && Same(s[i].name, name);
      if i > |l| {
        assert s[i] == r[i - |l| - 1];
      }
    }
  }

  lemma SameIsSymmetric(a: string, b: string)
    ensures Same(a, b) <==> Same(b, a)
  {
  }

  /** A name below g is in no handler above g. */
  lemma NotAbove(name: string, g: Handler, above: seq<Handler>)
    requires Less(name, g.name) && forall i :: 0 <= i < |above| ==> Less(g.name, above[i].name)
    ensures forall i :: 0 <= i < |above| ==> Less(name, above[i].name)
    ensures !Has(above, name)
  {
    hide Less, Same;
    forall i | 0 <= i < |above| ensures Less(name, above[i].name) && !Same(above[i].name, name) {
      LessIsTransitive(name, g.name, above[i].name);
      LessIsTotalOrder(name, above[i].name);
    }
  }

  lemma NotBelow(name: string, g: Handler, below: seq<Handler>)
    requires Less(g.name, name) && forall i :: 0 <= i < |below| ==> Less(below[i].name, g.name)
    ensures forall i :: 0 <= i < |below| ==> Less(below[i].name, name)
    ensures !Has(below, name)
  {
    hide Less, Same;
    forall i | 0 <= i < |below| ensures Less(below[i].name, name) && !Same(below[i].name, name) {
      LessIsTransitive(below[i].name, g.name, name);
      LessIsTotalOrder(below[i].name, name);
    }
  }

  // ------------------------------------------------------------------ lookup

  /** Whatever the tree, a request only ever matches a handler named like the name it starts with. */
  lemma {:induction false} NothingElseMatches(t: Tree, name: string, suffix: string)
    requires NulFree(name) && IsName(name) && IsSuffix(suffix) && AllNames(InOrder(t))
    ensures Tfind(t, name + suffix).Some? ==>
              Tfind(t, name + suffix).value in InOrder(t) && Same(name, Tfind(t, name + suffix).value.name)
    decreases t
  {
    hide Same, Less, ExtMatch, Misled;
    match t {
      case Leaf =>
      case Node(l, h, r) =>
        SubtreesAreNames(l, h, r);
        MatchFollowsOrder(name, suffix, h.name);
        NothingElseMatches(l, name, suffix);
        NothingElseMatches(r, name, suffix);
    }
  }

  lemma SubtreesAreNames(l: Tree, h: Handler, r: Tree)
    requires AllNames(InOrder(Node(l, h, r)))
    ensures AllNames(InOrder(l)) && AllNames(InOrder(r)) && NulFree(h.name) && IsName(h.name)
  {
    var s := InOrder(l) + [h] + InOrder(r);
    assert s[|InOrder(l)|] == h;
    assert forall i :: 0 <= i < |InOrder(l)| ==> s[i] == InOrder(l)[i];
    assert forall i :: 0 <= i < |InOrder(r)| ==> s[|InOrder(l)| + 1 + i] == InOrder(r)[i];
  }

  /** No registered name sends the request down the wrong side. */
  predicate NeverMisled(hs: seq<Handler>, name: string, suffix: string) {
    forall i :: 0 <= i < |hs| ==> !Misled(name, suffix, hs[i].name)
  }

  /** At a node, the comparison tells on which side the registered name is. */
  lemma DescentStep(l: seq<Handler>, h: Handler, r: seq<Handler>, name: string, suffix: string, i: nat)
    requires NulFree(name) && IsName(name) && IsSuffix(suffix)
    requires var s := l + [h] + r; AllNames(s) && Sorted(s) && NeverMisled(s, name, suffix)
    requires i < |l + [h] + r| && Same(name, (l + [h] + r)[i].name)
    ensures AllNames(l) && AllNames(r) && Sorted(l) && Sorted(r)
    ensures NeverMisled(l, name, suffix) && NeverMisled(r, name, suffix)
    ensures i < |l| ==> ExtMatch(name + suffix, h.name) < 0
    ensures i == |l| <==> ExtMatch(name + suffix, h.name) == 0
    ensures i > |l| ==> ExtMatch(name + suffix, h.name) > 0
  {
    hide Same, Less, ExtMatch, Misled, IsSuffix;
    var s := l + [h] + r;
    assert s[|l|] == h;
    assert forall j :: 0 <= j < |l| ==> s[j] == l[j];
    assert forall j :: 0 <= j < |r| ==> s[|l| + 1 + j] == r[j];
    SortedSplit(l, h, r);
    MatchFollowsOrder(name, suffix, h.name);
    LessRespectsSame(name, s[i].name, h.name);
    LessIsTotalOrder(s[i].name, h.name);
    LessIsTotalOrder(h.name, s[i].name);
    SameIsSymmetric(s[i].name, s[i].name);
    if i == |l| {
      assert Same(name, h.name);
    }
  }

  /** A request for a registered name finds exactly the handler registered under it, whatever the shape. */
  lemma {:induction false} LookupFinds(t: Tree, name: string, suffix: string, i: nat)
    requires NulFree(name) && IsName(name) && IsSuffix(suffix)
    requires AllNames(InOrder(t)) && Sorted(InOrder(t)) && NeverMisled(InOrder(t), name, suffix)
    requires i < |InOrder(t)| && Same(name, InOrder(t)[i].name)
    ensures Tfind(t, name + suffix) == Some(InOrder(t)[i])
    decreases t
  {
    hide Same, ExtMatch, IsSuffix, NulFree, IsName, AllNames, Sorted, NeverMisled;
    match t {
      case Leaf =>
      case Node(l, h, r) =>
        DescentStep(InOrder(l), h, InOrder(r), name, suffix, i);
        if i < |InOrder(l)| {
          LookupFinds(l, name, suffix, i);
        } else if i > |InOrder(l)| {
          LookupFinds(r, name, suffix, i - |InOrder(l)| - 1);
        }
    }
  }

  /** Without a name to mislead it, a request finds a handler exactly when its name is registered. */
  lemma LookupIff(t: Tree, name: string, suffix: string)
    requires NulFree(name) && IsName(name) && IsSuffix(suffix)
    requires AllNames(InOrder(t)) && Sorted(InOrder(t)) && NeverMisled(InOrder(t), name, suffix)
    ensures Tfind(t, name + suffix).Some? <==> Has(InOrder(t), name)
    ensures Tfind(t, name + suffix).Some? ==>
              Tfind(t, name + suffix).value in InOrder(t) && Same(name, Tfind(t, name + suffix).value.name)
  {
    hide Less, ExtMatch, Misled;
    NothingElseMatches(t, name, suffix);
    if Has(InOrder(t), name) {
      var i :| 0 <= i < |InOrder(t)| && Same(InOrder(t)[i].name, name);
      LookupFinds(t, name, suffix, i);
    }
  }

  /** No request matches two registered handlers. */
  lemma MatchIsUnique(hs: seq<Handler>, name: string, suffix: string, i: nat, j: nat)
    requires NulFree(name) && IsName(name) && IsSuffix(suffix) && AllNames(hs) && Sorted(hs)
    requires i < |hs| && j < |hs|
    requires ExtMatch(name + suffix, hs[i].name) == 0 && ExtMatch(name + suffix, hs[j].name) == 0
    ensures i == j
  {
    hide Less, Same, ExtMatch;
    MatchFollowsOrder(name, suffix, hs[i].name);
    MatchFollowsOrder(name, suffix, hs[j].name);
    LessRespectsSame(name, hs[i].name, hs[j].name);
    LessIsTotalOrder(hs[i].name, hs[j].name);
    LessIsTotalOrder(hs[j].name, hs[i].name);
  }

  // ------------------------------------------------------------------ exactly when lookup works

  /** Every registered command is found by every form of request, in every shape of the tree. */
  ghost predicate FoundInEveryShape(hs: seq<Handler>) {
    forall t: Tree, i: nat, suffix: string :: InOrder(t) == hs && i < |hs| && IsSuffix(suffix) ==>
      Tfind(t, hs[i].name + suffix) == Some(hs[i])
  }

  /** No registered name is another one continued by a digit. */
  predicate NoDigitExtension(hs: seq<Handler>) {
    forall i, j :: 0 <= i < |hs| && 0 <= j < |hs| ==> !DigitExtends(hs[j].name, hs[i].name)
  }

  /** A tree that leans right. */
  function Chain(hs: seq<Handler>): (t: Tree)
    ensures InOrder(t) == hs
  {
    if hs == [] then Leaf else Node(Leaf, hs[0], Chain(hs[1..]))
  }

  lemma DigitExtensionComesLater(hs: seq<Handler>, i: nat, j: nat)
    requires AllNames(hs) && Sorted(hs) && i < |hs| && j < |hs| && DigitExtends(hs[j].name, hs[i].name)
    ensures i < j && forall k :: j < k < |hs| ==> !Same(hs[i].name, hs[k].name)
    ensures ExtMatch(hs[i].name + "=", hs[j].name) > 0
  {
    var name := hs[i].name;
    assert AgreeUpTo(name, hs[j].name, |name|);
    assert Less(name, hs[j].name);
    hide Less, Same, ExtMatch;
    MatchFollowsOrder(name, "=", hs[j].name);
    LessIsTotalOrder(name, hs[j].name);
    LessIsTotalOrder(name, name);
    forall k | j < k < |hs| ensures !Same(name, hs[k].name) {
      LessIsTransitive(name, hs[j].name, hs[k].name);
      LessIsTotalOrder(name, hs[k].name);
    }
  }

  /** With the longer name at the root, the request for the shorter one goes right and is lost. */
  lemma DigitExtensionHidesName(hs: seq<Handler>, i: nat, j: nat)
    requires AllNames(hs) && Sorted(hs) && i < |hs| && j < |hs| && DigitExtends(hs[j].name, hs[i].name)
    ensures Tfind(Node(Chain(hs[..j]), hs[j], Chain(hs[j + 1..])), hs[i].name + "=").None?
    ensures InOrder(Node(Chain(hs[..j]), hs[j], Chain(hs[j + 1..]))) == hs
  {
    hide Less, Same, ExtMatch;
    var right := Chain(hs[j + 1..]);
    DigitExtensionComesLater(hs, i, j);
    NothingElseMatches(right, hs[i].name, "=");
    var above := hs[j + 1..];
    forall k | 0 <= k < |above| ensures !Same(hs[i].name, above[k].name) {
    }
    assert hs[..j] + [hs[j]] + hs[j + 1..] == hs;
  }

  /** Registering handlers one after the other, by a tsearch that does not rotate. */
  function Filled(t: Tree, hs: seq<Handler>): Tree
    decreases |hs|
  {
    if hs == [] then t else Filled(Tsearch(t, hs[0]).0, hs[1..])
  }

  lemma {:induction false} FilledConcat(t: Tree, a: seq<Handler>, b: seq<Handler>)
    ensures Filled(t, a + b) == Filled(Filled(t, a), b)
    decreases |a|
  {
    hide Tsearch;
    if a == [] {
      assert a + b == b;
    } else {
      assert (a + b)[0] == a[0] && (a + b)[1..] == a[1..] + b;
      FilledConcat(Tsearch(t, a[0]).0, a[1..], b);
    }
  }

  /** A greater name goes to the end of a chain. */
  lemma {:induction false} ChainGrows(hs: seq<Handler>, h: Handler)
    requires NulFree(h.name) && AllNulFree(hs) && forall i :: 0 <= i < |hs| ==> Less(hs[i].name, h.name)
    ensures Tsearch(Chain(hs), h) == (Chain(hs + [h]), true)
    decreases |hs|
  {
    hide Less, ExtCmp;
    if hs == [] {
      assert hs + [h] == [h] && [h][1..] == [];
    } else {
      assert (hs + [h])[0] == hs[0] && (hs + [h])[1..] == hs[1..] + [h];
      SignOfLess(hs[0].name, h.name);
      ChainGrows(hs[1..], h);
    }
  }

  lemma SignOfLess(a: string, b: string)
    requires NulFree(a) && NulFree(b) && Less(a, b)
    ensures ExtCmp(a, b) < 0 < ExtCmp(b, a)
  {
    hide Less, ExtCmp;
    ExtCmpIsLexicographic(a, b);
    ExtCmpIsLexicographic(b, a);
    LessIsTotalOrder(a, b);
  }

  /** Handlers below the root, in order, make a chain on its left. */
  lemma {:induction false} LeftChainGrows(a: seq<Handler>, g: Handler, r: Tree, l: seq<Handler>)
    requires Sorted(a + l) && AllNulFree(a + l) && NulFree(g.name)
    requires forall i :: 0 <= i < |l| ==> Less(l[i].name, g.name)
    ensures Filled(Node(Chain(a), g, r), l) == Node(Chain(a + l), g, r)
    decreases |l|
  {
    hide Less, ExtCmp, NulFree, Chain;
    if l == [] {
      assert a + l == a;
    } else {
      assert (a + l)[|a|] == l[0] && a + l == (a + [l[0]]) + l[1..];
      assert forall i :: 0 <= i < |a| ==> (a + l)[i] == a[i];
      SignOfLess(l[0].name, g.name);
      ChainGrows(a, l[0]);
      LeftChainGrows(a + [l[0]], g, r, l[1..]);
    }
  }

  /** Handlers above the root, in order, make a chain on its right. */
  lemma {:induction false} RightChainGrows(l: Tree, g: Handler, a: seq<Handler>, r: seq<Handler>)
    requires Sorted(a + r) && AllNulFree(a + r) && NulFree(g.name)
    requires forall i :: 0 <= i < |r| ==> Less(g.name, r[i].name)
    ensures Filled(Node(l, g, Chain(a)), r) == Node(l, g, Chain(a + r))
    decreases |r|
  {
    hide Less, ExtCmp, NulFree, Chain;
    if r == [] {
      assert a + r == a;
    } else {
      assert (a + r)[|a|] == r[0] && a + r == (a + [r[0]]) + r[1..];
      assert forall i :: 0 <= i < |a| ==> (a + r)[i] == a[i];
      SignOfLess(g.name, r[0].name);
      ChainGrows(a, r[0]);
      RightChainGrows(l, g, a + [r[0]], r[1..]);
    }
  }

  /** Registering one handler first and then the others in order makes it the root of two chains. */
  lemma RootFirst(l: seq<Handler>, g: Handler, r: seq<Handler>)
    requires Sorted(l + [g] + r) && AllNulFree(l + [g] + r)
    ensures Filled(Leaf, [g] + l + r) == Node(Chain(l), g, Chain(r))
  {
    hide Less, NulFree;
    SortedSplit(l, g, r);
    NulFreeSplit(l, g, r);
    assert [g][1..] == [];
    assert Filled(Leaf, [g]) == Node(Leaf, g, Leaf) == Node(Chain([]), g, Chain([]));
    hide Filled, Chain;
    assert [] + l == l && [] + r == r;
    FilledConcat(Leaf, [g], l);
    FilledConcat(Leaf, [g] + l, r);
    LeftChainGrows([], g, Chain([]), l);
    RightChainGrows(Chain(l), g, [], r);
  }

  /** So, registered in that order, the shorter name is lost although it is registered. */
  lemma RegistrationHidesName(hs: seq<Handler>, i: nat, j: nat)
    requires AllNames(hs) && Sorted(hs) && i < |hs| && j < |hs| && DigitExtends(hs[j].name, hs[i].name)
    ensures var order := [hs[j]] + hs[..j] + hs[j + 1..];
            && hs[i] in order && InOrder(Filled(Leaf, order)) == hs
            && Tfind(Filled(Leaf, order), hs[i].name + "=").None?
  {
    hide Less, ExtMatch, DigitExtends, Tfind, Filled, Chain, InOrder;
    DigitExtensionHidesName(hs, i, j);
    assert hs[..j] + [hs[j]] + hs[j + 1..] == hs;
    NamesAreNulFree(hs);
    RootFirst(hs[..j], hs[j], hs[j + 1..]);
    assert hs[i] in hs[..j] || hs[i] == hs[j] || hs[i] in hs[j + 1..] by {
      assert i < j ==> hs[..j][i] == hs[i];
      assert i > j ==> hs[j + 1..][i - j - 1] == hs[i];
    }
  }

  /** Two names are enough, the longer one registered first: a tree of two nodes needs no balancing. */
  lemma LongerFirstHidesShorter(shorter: Handler, longer: Handler)
    requires NulFree(shorter.name) && IsName(shorter.name) && NulFree(longer.name) && IsName(longer.name)
    requires DigitExtends(longer.name, shorter.name)
    ensures Tfind(Filled(Leaf, [longer, shorter]), shorter.name + "=").None?
  {
    assert AgreeUpTo(shorter.name, longer.name, |shorter.name|);
    assert Less(shorter.name, longer.name);
    hide Less, DigitExtends, Tfind, Filled;
    RegistrationHidesName([shorter, longer], 0, 1);
    assert [longer] + [shorter, longer][..1] + [shorter, longer][2..] == [longer, shorter];
  }

  lemma NamesAreNulFree(hs: seq<Handler>)
    requires AllNames(hs)
    ensures AllNulFree(hs)
  {
  }

  /** Lookup works for every registered command in every tree exactly when no name digit-extends another. */
  lemma FoundInEveryShapeIff(hs: seq<Handler>)
    requires AllNames(hs) && Sorted(hs)
    ensures FoundInEveryShape(hs) <==> NoDigitExtension(hs)
  {
    hide Less, Same, DigitExtends, Tfind, AllNames, Sorted;
    if NoDigitExtension(hs) {
      forall t: Tree, i: nat, suffix: string | InOrder(t) == hs && i < |hs| && IsSuffix(suffix)
        ensures Tfind(t, hs[i].name + suffix) == Some(hs[i])
      {
        RegisteredNameIsSame(hs, i);
        LookupFinds(t, hs[i].name, suffix, i);
      }
    } else {
      var i, j :| 0 <= i < |hs| && 0 <= j < |hs| && DigitExtends(hs[j].name, hs[i].name);
      DigitExtensionHidesName(hs, i, j);
      assert IsSuffix("=");
    }
  }

  lemma RegisteredNameIsSame(hs: seq<Handler>, i: nat)
    requires AllNames(hs) && i < |hs|
    ensures NulFree(hs[i].name) && IsName(hs[i].name) && Same(hs[i].name, hs[i].name)
  {
  }

  // ------------------------------------------------------------------ AT+CLAC

  datatype Visit = Preorder | Postorder | Endorder | LeafVisit

  /** twalk: the action called on every node, with the kind of visit. */
  function Walk(t: Tree): seq<(Visit, Handler)> {
    match t
    case Leaf => []
    case Node(l, h, r) =>
      if l == Leaf && r == Leaf then [(LeafVisit, h)]
      else [(Preorder, h)] + Walk(l) + [(Postorder, h)] + Walk(r) + [(Endorder, h)]
  }

  /** print_clac: what one call of the action prints. */
  function PrintClac(visit: Visit, h: Handler): seq<string> {
    if visit != Postorder && visit != LeafVisit then []
    else if h.name == "" || h.name[0] != '+' then []
    else [h.name]
  }

  function PrintAll(visits: seq<(Visit, Handler)>): seq<string> {
    if visits == [] then [] else PrintClac(visits[0].0, visits[0].1) + PrintAll(visits[1..])
  }

  /** The names of hs that start with '+', in order. */
  function PlusNames(hs: seq<Handler>): seq<string> {
    if hs == [] then []
    else (if hs[0].name != "" && hs[0].name[0] == '+' then [hs[0].name] else []) + PlusNames(hs[1..])
  }

  lemma {:induction false} PrintAllConcat(a: seq<(Visit, Handler)>, b: seq<(Visit, Handler)>)
    ensures PrintAll(a + b) == PrintAll(a) + PrintAll(b)
    decreases |a|
  {
    if a == [] {
      assert a + b == b;
    } else {
      assert (a + b)[0] == a[0] && (a + b)[1..] == a[1..] + b;
      PrintAllConcat(a[1..], b);
    }
  }

  lemma {:induction false} PlusNamesConcat(a: seq<Handler>, b: seq<Handler>)
    ensures PlusNames(a + b) == PlusNames(a) + PlusNames(b)
    decreases |a|
  {
    if a == [] {
      assert a + b == b;
    } else {
      assert (a + b)[0] == a[0] && (a + b)[1..] == a[1..] + b;
      PlusNamesConcat(a[1..], b);
    }
  }

  lemma PrintAllOne(visit: Visit, h: Handler)
    ensures PrintAll([(visit, h)]) == PrintClac(visit, h)
  {
    assert [(visit, h)][1..] == [];
  }

  lemma PrintAllNode(h: Handler, l: seq<(Visit, Handler)>, r: seq<(Visit, Handler)>)
    ensures PrintAll([(Preorder, h)] + l + [(Postorder, h)] + r + [(Endorder, h)])
              == PrintAll(l) + PrintClac(Postorder, h) + PrintAll(r)
  {
    hide PrintAll;
    var pre, mid, post := [(Preorder, h)], [(Postorder, h)], [(Endorder, h)];
    PrintAllConcat(pre + l + mid + r, post);
    PrintAllConcat(pre + l + mid, r);
    PrintAllConcat(pre + l, mid);
    PrintAllConcat(pre, l);
    PrintAllOne(Preorder, h);
    PrintAllOne(Postorder, h);
    PrintAllOne(Endorder, h);
  }

  lemma PlusNamesOne(h: Handler)
    ensures PlusNames([h]) == PrintClac(Postorder, h) == PrintClac(LeafVisit, h)
  {
    assert [h][1..] == [];
  }

  lemma {:induction false} WalkPrintsInOrder(t: Tree)
    ensures PrintAll(Walk(t)) == PlusNames(InOrder(t))
    decreases t
  {
    match t {
      case Leaf =>
      case Node(l, h, r) =>
        hide PlusNames, PrintClac;
        PlusNamesOne(h);
        if l == Leaf && r == Leaf {
          PrintAllOne(LeafVisit, h);
          assert InOrder(t) == [h];
        } else {
          hide PrintAll;
          PlusNamesConcat(InOrder(l) + [h], InOrder(r));
          PlusNamesConcat(InOrder(l), [h]);
          PrintAllNode(h, Walk(l), Walk(r));
          WalkPrintsInOrder(l);
          WalkPrintsInOrder(r);
        }
    }
  }

  lemma {:induction false} PlusNamesAscend(hs: seq<Handler>)
    requires Sorted(hs)
    ensures forall i, j :: 0 <= i < j < |PlusNames(hs)| ==> Less(PlusNames(hs)[i], PlusNames(hs)[j])
    ensures forall n :: n in PlusNames(hs) <==> n != "" && n[0] == '+' && exists i :: 0 <= i < |hs| && hs[i].name == n
    decreases |hs|
  {
    hide Less;
    if hs == [] {
    } else {
      var others := hs[1..];
      assert forall i :: 0 <= i < |others| ==> others[i] == hs[i + 1];
      PlusNamesAscend(others);
      forall n | n in PlusNames(others) ensures Less(hs[0].name, n) {
        var i :| 0 <= i < |others| && others[i].name == n;
      }
      forall n ensures n in PlusNames(hs) <==> n != "" && n[0] == '+' && exists i :: 0 <= i < |hs| && hs[i].name == n {
        if n != "" && n[0] == '+' && exists i :: 0 <= i < |hs| && hs[i].name == n {
          var i :| 0 <= i < |hs| && hs[i].name == n;
          if i > 0 {
            assert others[i - 1].name == n;
          }
        }
      }
    }
  }

  /** AT+CLAC lists the registered names that start with '+', each once, in ascending order. */
  lemma ClacListsPlusNames(t: Tree)
    requires Sorted(InOrder(t))
    ensures var listed := PrintAll(Walk(t));
            && (forall i, j :: 0 <= i < j < |listed| ==> Less(listed[i], listed[j]))
            && (forall n :: n in listed <==>
                  n != "" && n[0] == '+' && exists i :: 0 <= i < |InOrder(t)| && InOrder(t)[i].name == n)
  {
    WalkPrintsInOrder(t);
    PlusNamesAscend(InOrder(t));
  }
}
