/**
 * The two comparators of extended commands. Registration sorts names with ExtCmp; a request is
 * looked up in the same tree with ExtMatch, which sees the request with its operator and arguments.
 */
module NameOrder {
  import opened Ctype

  /** strncasecmp */
  function CompareN(a: string, b: string, n: nat): int
    decreases n
  {
    if n == 0 then 0
    else
      var ca, cb := Lower(CharAt(a, 0)), Lower(CharAt(b, 0));
      if ca != cb then ca as int - cb as int
      else if a == "" || b == "" then 0
      else CompareN(a[1..], b[1..], n - 1)
  }

  /** ext_cmp */
  function ExtCmp(a: string, b: string): int {
    if |a| > |b| then
      var val := CompareN(a, b, |b|);
      if val != 0 then val else 1
    else if |a| < |b| then
      var val := CompareN(a, b, |a|);
      if val != 0 then val else -1
    else CompareN(a, b, |a| + 1)
  }

  /** ext_match: the first argument is the request, the second a registered name. */
  function ExtMatch(request: string, name: string): int {
    var val := CompareN(request, name, |name|);
    if val != 0 then val
    else if IsAlnum(CharAt(request, |name|)) then 1
    else 0
  }

  // ------------------------------------------------------------------ the reference order

  /** Equal in any case. */
  predicate Same(a: string, b: string) {
    |a| == |b| && forall i :: 0 <= i < |a| ==> Lower(a[i]) == Lower(b[i])
  }

  /** a and b agree, in any case, on their first k characters. */
  predicate AgreeUpTo(a: string, b: string, k: nat)
    requires k <= |a| && k <= |b|
  {
    forall i :: 0 <= i < k ==> Lower(a[i]) == Lower(b[i])
  }

  /** Case-insensitive lexicographic order: a is a proper prefix of b, or smaller where they first differ. */
  predicate Less(a: string, b: string) {
    exists k: nat :: k <= |a| && k < |b| && AgreeUpTo(a, b, k) && (k == |a| || Lower(a[k]) < Lower(b[k]))
  }

  lemma AgreeTail(a: string, b: string, k: nat)
    requires k < |a| && k < |b| && Lower(a[0]) == Lower(b[0])
    ensures AgreeUpTo(a, b, k + 1) <==> AgreeUpTo(a[1..], b[1..], k)
  {
    if AgreeUpTo(a[1..], b[1..], k) {
      forall i | 0 <= i < k + 1 ensures Lower(a[i]) == Lower(b[i]) {
        if i > 0 { assert a[1..][i - 1] == a[i] && b[1..][i - 1] == b[i]; }
      }
    }
  }

  lemma LessTail(a: string, b: string)
    requires a != "" && b != "" && Lower(a[0]) == Lower(b[0])
    ensures Less(a, b) <==> Less(a[1..], b[1..])
    ensures Same(a, b) <==> Same(a[1..], b[1..])
  {
    if Less(a, b) {
      var k: nat :| k <= |a| && k < |b| && AgreeUpTo(a, b, k) && (k == |a| || Lower(a[k]) < Lower(b[k]));
      AgreeTail(a, b, k - 1);
    }
    if Less(a[1..], b[1..]) {
      var k: nat :| k <= |a[1..]| && k < |b[1..]| && AgreeUpTo(a[1..], b[1..], k)
                    && (k == |a[1..]| || Lower(a[1..][k]) < Lower(b[1..][k]));
      AgreeTail(a, b, k);
      assert AgreeUpTo(a, b, k + 1);
    }
    if |a| == |b| {
      AgreeTail(a, b, |a| - 1);
      assert Same(a, b) <==> AgreeUpTo(a, b, |a|);
      assert Same(a[1..], b[1..]) <==> AgreeUpTo(a[1..], b[1..], |a| - 1);
    }
  }

  lemma LessHead(a: string, b: string)
    requires a == "" || b == "" || Lower(a[0]) != Lower(b[0])
    ensures Less(a, b) <==> b != "" && (a == "" || Lower(a[0]) < Lower(b[0]))
    ensures Same(a, b) <==> a == "" && b == ""
  {
    if b != "" && (a == "" || Lower(a[0]) < Lower(b[0])) {
      assert AgreeUpTo(a, b, 0);
    }
  }

  /** ext_cmp decides the case-insensitive lexicographic order. */
  lemma {:induction false} ExtCmpIsLexicographic(a: string, b: string)
    requires NulFree(a) && NulFree(b)
    ensures ExtCmp(a, b) < 0 <==> Less(a, b)
    ensures ExtCmp(a, b) == 0 <==> Same(a, b)
    ensures ExtCmp(a, b) > 0 <==> Less(b, a)
    decreases |a|
  {
    hide Less, Same;
    if a != "" && b != "" && Lower(a[0]) == Lower(b[0]) {
      ExtCmpIsLexicographic(a[1..], b[1..]);
      LessTail(a, b);
      LessTail(b, a);
    } else {
      LessHead(a, b);
      LessHead(b, a);
    }
  }

  /** The order is a strict total order on names up to case. */
  lemma {:induction false} LessIsTotalOrder(a: string, b: string)
    ensures Less(a, b) || Same(a, b) || Less(b, a)
    ensures !(Less(a, b) && Less(b, a)) && !(Less(a, b) && Same(a, b))
    ensures Less(a, b) ==> !Same(b, a)
    decreases |a|
  {
    hide Less, Same;
    if a != "" && b != "" && Lower(a[0]) == Lower(b[0]) {
      LessIsTotalOrder(a[1..], b[1..]);
      LessTail(a, b);
      LessTail(b, a);
    } else {
      LessHead(a, b);
      LessHead(b, a);
    }
  }

  lemma LessIsTransitive(a: string, b: string, c: string)
    requires Less(a, b) && Less(b, c)
    ensures Less(a, c)
  {
    var j: nat :| j <= |a| && j < |b| && AgreeUpTo(a, b, j) && (j == |a| || Lower(a[j]) < Lower(b[j]));
    var k: nat :| k <= |b| && k < |c| && AgreeUpTo(b, c, k) && (k == |b| || Lower(b[k]) < Lower(c[k]));
    var m := if j < k then j else k;
    assert AgreeUpTo(a, c, m);
  }

  lemma LessRespectsSame(a: string, a': string, b: string)
    requires Same(a, a')
    ensures Less(a, b) <==> Less(a', b)
    ensures Less(b, a) <==> Less(b, a')
    ensures Same(a, b) <==> Same(a', b)
  {
    if Less(a, b) {
      var k: nat :| k <= |a| && k < |b| && AgreeUpTo(a, b, k) && (k == |a| || Lower(a[k]) < Lower(b[k]));
      assert AgreeUpTo(a', b, k);
    }
    if Less(a', b) {
      var k: nat :| k <= |a'| && k < |b| && AgreeUpTo(a', b, k) && (k == |a'| || Lower(a'[k]) < Lower(b[k]));
      assert AgreeUpTo(a, b, k);
    }
    if Less(b, a) {
      var k: nat :| k <= |b| && k < |a| && AgreeUpTo(b, a, k) && (k == |b| || Lower(b[k]) < Lower(a[k]));
      assert AgreeUpTo(b, a', k);
    }
    if Less(b, a') {
      var k: nat :| k <= |b| && k < |a'| && AgreeUpTo(b, a', k) && (k == |b| || Lower(b[k]) < Lower(a'[k]));
      assert AgreeUpTo(b, a, k);
    }
  }

  // ------------------------------------------------------------------ requests

  /** A registered name: a symbol, then letters and digits. */
  predicate IsName(n: string) {
    && n != "" && n[0] != NUL && !IsAlnum(n[0])
    && forall i :: 1 <= i < |n| ==> IsAlnum(n[i])
  }

  /** What follows the name in a request: nothing, or a space, '=' or '?' and anything. */
  predicate IsSuffix(s: string) {
    NulFree(s) && (s == "" || s[0] in {' ', '=', '?'})
  }

  /** longer is name, in any case, continued by a digit. */
  predicate DigitExtends(longer: string, name: string) {
    |longer| > |name| && AgreeUpTo(longer, name, |name|) && IsDigit(longer[|name|])
  }

  /** '=' and '?' sort above the digits: such a request passes on the wrong side of such a name. */
  predicate Misled(name: string, suffix: string, other: string) {
    suffix != "" && suffix[0] != ' ' && DigitExtends(other, name)
  }

  lemma DigitExtendsTail(longer: string, name: string)
    requires longer != "" && name != "" && Lower(longer[0]) == Lower(name[0])
    ensures DigitExtends(longer, name) <==> DigitExtends(longer[1..], name[1..])
  {
    if |longer| >= |name| {
      AgreeTail(longer, name, |name| - 1);
    }
  }

  /** One comparison of a descent points to where the requested name is, unless the request is misled. */
  lemma {:induction false} MatchFollowsOrder(name: string, suffix: string, other: string)
    requires IsSuffix(suffix)
    requires NulFree(name) && NulFree(other)
    requires |other| > |name| ==> IsAlnum(other[|name|])
    requires |name| > |other| ==> IsAlnum(name[|other|])
    ensures ExtMatch(name + suffix, other) == 0 <==> Same(name, other)
    ensures ExtMatch(name + suffix, other) > 0 <==> Less(other, name) || Misled(name, suffix, other)
    decreases |name|
  {
    hide Less, Same;
    var request := name + suffix;
    if name != "" && other != "" && Lower(name[0]) == Lower(other[0]) {
      assert request[1..] == name[1..] + suffix;
      assert CharAt(request, |other|) == CharAt(request[1..], |other| - 1);
      MatchFollowsOrder(name[1..], suffix, other[1..]);
      LessTail(name, other);
      LessTail(other, name);
      DigitExtendsTail(other, name);
    } else {
      LessHead(name, other);
      LessHead(other, name);
      if name != "" && other != "" {
        assert !DigitExtends(other, name);
        assert request[0] == name[0];
      } else if name == "" {
        assert request == suffix;
      } else {
        assert request[0] == name[0];
      }
    }
  }
}
