/**
 * String primitives the engine borrows from the JavaScript runtime:
 * `lastIndexOf`, `endsWith`, a character-class `replace(/[..]/g, c)` and
 * the run-collapsing `replace(/ +/g, ' ')`.
 */
module Text {

  /** The index of the last character of `s` that lies in `cs`, or -1. */
  function LastIndexIn(s: string, cs: set<char>): (r: int)
    ensures -1 <= r < |s|
    ensures r >= 0 ==> s[r] in cs
    ensures forall j :: r < j < |s| ==> s[j] !in cs
  {
    if |s| == 0 then -1
    else if s[|s| - 1] in cs then |s| - 1
    else LastIndexIn(s[..|s| - 1], cs)
  }

  /** Characters outside `cs` appended at the end do not move the last index into `cs`. */
  lemma {:induction false} LastIndexSkipsTail(a: string, b: string, cs: set<char>)
    requires forall i :: 0 <= i < |b| ==> b[i] !in cs
    ensures LastIndexIn(a + b, cs) == LastIndexIn(a, cs)
    decreases |b|
  {
    if |b| == 0 {
      assert a + b == a;
    } else {
      assert (a + b)[|a + b| - 1] == b[|b| - 1];
      assert (a + b)[..|a + b| - 1] == a + b[..|b| - 1];
      LastIndexSkipsTail(a, b[..|b| - 1], cs);
    }
  }

  predicate EndsWith(s: string, suffix: string) {
    |suffix| <= |s| && s[|s| - |suffix|..] == suffix
  }

  /** `s.replace(/[from]/g, to)`: every character of `from` becomes `to`. */
  function Translate(s: string, from: set<char>, to: char): (r: string)
    ensures |r| == |s|
    ensures forall i :: 0 <= i < |s| ==> r[i] == (if s[i] in from then to else s[i])
  {
    if |s| == 0 then [] else [if s[0] in from then to else s[0]] + Translate(s[1..], from, to)
  }

  predicate NoDoubleSpace(s: string) {
    forall i :: 0 <= i < |s| - 1 ==> !(s[i] == ' ' && s[i + 1] == ' ')
  }

  /** `s.replace(/ +/g, ' ')`: every run of ASCII spaces becomes a single space. */
  function CollapseSpaces(s: string): (r: string)
    ensures |r| <= |s|
    ensures |s| > 0 ==> |r| > 0 && r[0] == s[0]
    ensures NoDoubleSpace(r)
  {
    if |s| < 2 then s
    else if s[0] == ' ' && s[1] == ' ' then CollapseSpaces(s[1..])
    else [s[0]] + CollapseSpaces(s[1..])
  }

  /** `s` with every occurrence of `c` removed. */
  function Without(s: string, c: char): (r: string)
    ensures c !in r
  {
    if |s| == 0 then [] else (if s[0] == c then [] else [s[0]]) + Without(s[1..], c)
  }

  /** Collapsing keeps every non-space character, in order. */
  lemma {:induction false} CollapseKeepsOtherCharacters(s: string)
    ensures Without(CollapseSpaces(s), ' ') == Without(s, ' ')
  {
    if |s| >= 2 {
      CollapseKeepsOtherCharacters(s[1..]);
      if !(s[0] == ' ' && s[1] == ' ') {
        assert ([s[0]] + CollapseSpaces(s[1..]))[1..] == CollapseSpaces(s[1..]);
      }
    }
  }

  /** Collapsing keeps spaces: a space survives exactly when there was one. */
  lemma {:induction false} CollapseKeepsSomeSpace(s: string)
    ensures ' ' in CollapseSpaces(s) <==> ' ' in s
  {
    if |s| >= 2 {
      CollapseKeepsSomeSpace(s[1..]);
      assert s == [s[0]] + s[1..];
    }
  }

  /** A string without double spaces is a fixed point: collapsing twice is collapsing once. */
  lemma {:induction false} CollapseFixesNoDoubleSpace(s: string)
    requires NoDoubleSpace(s)
    ensures CollapseSpaces(s) == s
  {
    if |s| >= 2 {
      assert NoDoubleSpace(s[1..]) by {
        forall i | 0 <= i < |s[1..]| - 1 ensures !(s[1..][i] == ' ' && s[1..][i + 1] == ' ') {
          assert s[1..][i] == s[i + 1] && s[1..][i + 1] == s[i + 2];
        }
      }
      CollapseFixesNoDoubleSpace(s[1..]);
      assert s == [s[0]] + s[1..];
    }
  }

  lemma CollapseIdempotent(s: string)
    ensures CollapseSpaces(CollapseSpaces(s)) == CollapseSpaces(s)
  {
    CollapseFixesNoDoubleSpace(CollapseSpaces(s));
  }

  /** `n` ASCII spaces. */
  function Spaces(n: nat): (r: string)
    ensures |r| == n && forall i :: 0 <= i < n ==> r[i] == ' '
  {
    seq(n, _ => ' ')
  }

  /**
   * A non-space character is a fixed point of collapsing: the runs before it
   * and the runs after it are collapsed separately, so no run moves across it.
   */
  lemma {:induction false} CollapseSplitsAtNonSpace(a: string, c: char, b: string)
    requires c != ' '
    ensures CollapseSpaces(a + [c] + b) == CollapseSpaces(a + [c]) + CollapseSpaces(b)
    decreases |a|
  {
    if |a| == 0 {
      assert a + [c] + b == [c] + b;
      assert a + [c] == [c];
      if |b| > 0 {
        assert ([c] + b)[1..] == b;
      }
    } else {
      var s := a + [c] + b;
      var t := a + [c];
      assert s[1..] == a[1..] + [c] + b;
      assert t[1..] == a[1..] + [c];
      assert s[0] == t[0] && s[1] == t[1];
      CollapseSplitsAtNonSpace(a[1..], c, b);
      if !(s[0] == ' ' && s[1] == ' ') {
        assert [s[0]] + (CollapseSpaces(t[1..]) + CollapseSpaces(b)) == ([t[0]] + CollapseSpaces(t[1..])) + CollapseSpaces(b);
      }
    }
  }

  /** A run of one or more spaces before a non-space character becomes exactly one space. */
  lemma {:induction false} RunBeforeCharacterBecomesOneSpace(n: nat, c: char, b: string)
    requires n >= 1 && c != ' '
    ensures CollapseSpaces(Spaces(n) + [c] + b) == [' ', c] + CollapseSpaces(b)
  {
    var s := Spaces(n) + [c] + b;
    assert s[0] == ' ';
    if n == 1 {
      assert s[1] == c;
      assert s[1..] == [c] + b;
      if |b| > 0 {
        assert ([c] + b)[1..] == b;
      }
    } else {
      assert s[1] == ' ';
      assert s[1..] == Spaces(n - 1) + [c] + b;
      RunBeforeCharacterBecomesOneSpace(n - 1, c, b);
    }
  }

  /** A run of one or more spaces on its own becomes exactly one space. */
  lemma {:induction false} TrailingRunBecomesOneSpace(n: nat)
    requires n >= 1
    ensures CollapseSpaces(Spaces(n)) == [' ']
  {
    if n >= 2 {
      assert Spaces(n)[1..] == Spaces(n - 1);
      TrailingRunBecomesOneSpace(n - 1);
    }
  }

  /** Translating never introduces a character other than its target. */
  lemma TranslateKeepsOut(s: string, from: set<char>, to: char, c: char)
    requires c !in s && c != to
    ensures c !in Translate(s, from, to)
  {
  }

  /** Translating neither creates nor removes spaces, so no double space appears. */
  lemma TranslateKeepsNoDoubleSpace(s: string, from: set<char>, to: char)
    requires NoDoubleSpace(s) && ' ' !in from && to != ' '
    ensures NoDoubleSpace(Translate(s, from, to))
  {
    var r := Translate(s, from, to);
    forall i | 0 <= i < |r| - 1 ensures !(r[i] == ' ' && r[i + 1] == ' ') {
      assert r[i] == ' ' ==> s[i] == ' ';
      assert r[i + 1] == ' ' ==> s[i + 1] == ' ';
    }
  }
}
