/**
 * The normalization step of a rename pipeline (applyNormalization in
 * src/composables/useRename.ts): NFKC first, then up to seven fixed
 * character maps, each behind its own toggle and always in the same order.
 */
module Normalizer {
  import opened Text
  import opened Types
  import opened Foreign

  const IdeographicSpace: char := '　'
  /** Wave dash U+301C, tilde operator U+223C and full-width tilde U+FF5E ... */
  const WaveDashes: set<char> := {'〜', '∼', '～'}
  /** ... all become the full-width tilde. */
  const WaveDashTarget: char := '～'
  /** Hyphen, non-breaking hyphen, en dash, em dash, horizontal bar, full-width hyphen-minus. */
  const Dashes: set<char> := {'‐', '‑', '–', '—', '―', '－'}
  /** Half-width katakana middle dot, middle dot, Greek ano teleia and bullet ... */
  const MiddleDots: set<char> := {'･', '·', '·', '•'}
  /** ... all become the katakana middle dot U+30FB. */
  const MiddleDotTarget: char := '・'
  const FullWidthOpenParen: char := '（'
  const FullWidthCloseParen: char := '）'
  const FullWidthColon: char := '：'
  const FullWidthSlash: char := '／'

  predicate AllOff(o: NormalizationOptions) {
    !o.space && !o.waveDash && !o.dash && !o.middleDot && !o.brackets && !o.colon && !o.slash
  }

  /** The characters the enabled one-for-one maps (all but `space`) may rewrite. */
  function Rewritten(o: NormalizationOptions): (r: set<char>) {
    (if o.waveDash then WaveDashes else {})
    + (if o.dash then Dashes else {})
    + (if o.middleDot then MiddleDots else {})
    + (if o.brackets then {FullWidthOpenParen, FullWidthCloseParen} else {})
    + (if o.colon then {':'} else {})
    + (if o.slash then {'/'} else {})
  }

  function SpaceRule(s: string): (r: string) {
    CollapseSpaces(Translate(s, {IdeographicSpace}, ' '))
  }

  function ApplyNormalization(nfkc: Nfkc, input: string, options: NormalizationOptions): (r: string)
    ensures AllOff(options) ==> r == nfkc(input)
  {
    var s0 := nfkc(input);
    var s1 := if options.space then SpaceRule(s0) else s0;
    var s2 := if options.waveDash then Translate(s1, WaveDashes, WaveDashTarget) else s1;
    var s3 := if options.dash then Translate(s2, Dashes, '-') else s2;
    var s4 := if options.middleDot then Translate(s3, MiddleDots, MiddleDotTarget) else s3;
    var s5 := if options.brackets
      then Translate(Translate(s4, {FullWidthOpenParen}, '('), {FullWidthCloseParen}, ')')
      else s4;
    var s6 := if options.colon then Translate(s5, {':'}, FullWidthColon) else s5;
    if options.slash then Translate(s6, {'/'}, FullWidthSlash) else s6
  }

  /** With `colon` on, no ASCII colon survives: the later slash map cannot bring one back. */
  lemma ColonRemoved(nfkc: Nfkc, input: string, options: NormalizationOptions)
    requires options.colon
    ensures ':' !in ApplyNormalization(nfkc, input, options)
  {
    var r := ApplyNormalization(nfkc, input, options);
    forall i | 0 <= i < |r| ensures r[i] != ':' { }
  }

  /** With `slash` on, no ASCII slash survives: it is the last map applied. */
  lemma SlashRemoved(nfkc: Nfkc, input: string, options: NormalizationOptions)
    requires options.slash
    ensures '/' !in ApplyNormalization(nfkc, input, options)
  {
    var r := ApplyNormalization(nfkc, input, options);
    forall i | 0 <= i < |r| ensures r[i] != '/' { }
  }

  /**
   * With `space` on, no ideographic space and no two adjacent ASCII spaces
   * survive: none of the later maps produces or consumes a space.
   */
  lemma SpacesCollapsed(nfkc: Nfkc, input: string, options: NormalizationOptions)
    requires options.space
    ensures IdeographicSpace !in ApplyNormalization(nfkc, input, options)
    ensures NoDoubleSpace(ApplyNormalization(nfkc, input, options))
  {
    var s0 := nfkc(input);
    var t := Translate(s0, {IdeographicSpace}, ' ');
    assert IdeographicSpace !in t by {
      forall i | 0 <= i < |t| ensures t[i] != IdeographicSpace { }
    }
    var s1 := CollapseSpaces(t);
    assert IdeographicSpace !in s1 by {
      CollapseKeepsOtherCharacters(t);
      WithoutKeepsOthers(t, ' ', IdeographicSpace);
      WithoutKeepsOthers(s1, ' ', IdeographicSpace);
    }
    var s2 := KeepSpaceFacts(s1, options.waveDash, WaveDashes, WaveDashTarget);
    var s3 := KeepSpaceFacts(s2, options.dash, Dashes, '-');
    var s4 := KeepSpaceFacts(s3, options.middleDot, MiddleDots, MiddleDotTarget);
    var s4a := KeepSpaceFacts(s4, options.brackets, {FullWidthOpenParen}, '(');
    var s5 := KeepSpaceFacts(s4a, options.brackets, {FullWidthCloseParen}, ')');
    var s6 := KeepSpaceFacts(s5, options.colon, {':'}, FullWidthColon);
    var s7 := KeepSpaceFacts(s6, options.slash, {'/'}, FullWidthSlash);
    assert s7 == ApplyNormalization(nfkc, input, options);
  }

  /** One optional map that keeps both space facts (a helper for SpacesCollapsed). */
  lemma KeepSpaceFacts(s: string, on: bool, from: set<char>, to: char) returns (r: string)
    requires IdeographicSpace !in s && NoDoubleSpace(s)
    requires ' ' !in from && to != ' ' && to != IdeographicSpace
    ensures r == (if on then Translate(s, from, to) else s)
    ensures IdeographicSpace !in r && NoDoubleSpace(r)
  {
    r := if on then Translate(s, from, to) else s;
    if on {
      TranslateKeepsOut(s, from, to, IdeographicSpace);
      TranslateKeepsNoDoubleSpace(s, from, to);
    }
  }

  /** Removing some other character never removes `c`. */
  lemma {:induction false} WithoutKeepsOthers(s: string, d: char, c: char)
    requires c != d
    ensures c in Without(s, d) <==> c in s
  {
    if |s| > 0 {
      WithoutKeepsOthers(s[1..], d, c);
      assert s == [s[0]] + s[1..];
    }
  }

  /**
   * Without `space`, normalization keeps the length of the NFKC form and
   * changes only characters that an enabled map lists.
   */
  lemma OnlyListedCharactersChange(nfkc: Nfkc, input: string, options: NormalizationOptions)
    requires !options.space
    ensures |ApplyNormalization(nfkc, input, options)| == |nfkc(input)|
    ensures forall i :: 0 <= i < |nfkc(input)| && nfkc(input)[i] !in Rewritten(options) ==>
      ApplyNormalization(nfkc, input, options)[i] == nfkc(input)[i]
  {
  }

  /** One optional one-for-one map, on a single character. */
  function StageChar(c: char, on: bool, from: set<char>, to: char): (r: char)
    ensures r != c ==> on && c in from && r == to
  {
    if on && c in from then to else c
  }

  /** One optional one-for-one map on a whole string: it works position by position. */
  function Stage(s: string, on: bool, from: set<char>, to: char): (r: string)
    ensures |r| == |s|
    ensures forall i :: 0 <= i < |s| ==> r[i] == StageChar(s[i], on, from, to)
  {
    if on then Translate(s, from, to) else s
  }

  /** Where one character goes under the one-for-one maps (every toggle but `space`), in their order. */
  function MapChar(o: NormalizationOptions, c: char): (r: char)
    ensures c !in Rewritten(o) ==> r == c
  {
    var c2 := StageChar(c, o.waveDash, WaveDashes, WaveDashTarget);
    var c3 := StageChar(c2, o.dash, Dashes, '-');
    var c4 := StageChar(c3, o.middleDot, MiddleDots, MiddleDotTarget);
    var c5 := StageChar(c4, o.brackets, {FullWidthOpenParen}, '(');
    var c5a := StageChar(c5, o.brackets, {FullWidthCloseParen}, ')');
    var c6 := StageChar(c5a, o.colon, {':'}, FullWidthColon);
    StageChar(c6, o.slash, {'/'}, FullWidthSlash)
  }

  /** Without `space`, normalization is NFKC followed by MapChar at every position. */
  lemma PerCharacter(nfkc: Nfkc, input: string, options: NormalizationOptions)
    requires !options.space
    ensures |ApplyNormalization(nfkc, input, options)| == |nfkc(input)|
    ensures forall i :: 0 <= i < |nfkc(input)| ==>
      ApplyNormalization(nfkc, input, options)[i] == MapChar(options, nfkc(input)[i])
  {
    var s1 := nfkc(input);
    var s2 := Stage(s1, options.waveDash, WaveDashes, WaveDashTarget);
    var s3 := Stage(s2, options.dash, Dashes, '-');
    var s4 := Stage(s3, options.middleDot, MiddleDots, MiddleDotTarget);
    var s4a := Stage(s4, options.brackets, {FullWidthOpenParen}, '(');
    var s5 := Stage(s4a, options.brackets, {FullWidthCloseParen}, ')');
    var s6 := Stage(s5, options.colon, {':'}, FullWidthColon);
    var r := Stage(s6, options.slash, {'/'}, FullWidthSlash);
    assert r == ApplyNormalization(nfkc, input, options);
    forall i | 0 <= i < |s1| ensures r[i] == MapChar(options, s1[i]) {
      assert s2[i] == StageChar(s1[i], options.waveDash, WaveDashes, WaveDashTarget);
      assert s3[i] == StageChar(s2[i], options.dash, Dashes, '-');
      assert s4[i] == StageChar(s3[i], options.middleDot, MiddleDots, MiddleDotTarget);
      assert s4a[i] == StageChar(s4[i], options.brackets, {FullWidthOpenParen}, '(');
      assert s5[i] == StageChar(s4a[i], options.brackets, {FullWidthCloseParen}, ')');
      assert s6[i] == StageChar(s5[i], options.colon, {':'}, FullWidthColon);
    }
  }

  /** Each map's target survives the maps after it. */
  lemma TargetsSurvive(o: NormalizationOptions, c: char)
    ensures o.waveDash && c in WaveDashes ==> MapChar(o, c) == WaveDashTarget
    ensures o.dash && c in Dashes ==> MapChar(o, c) == '-'
    ensures o.middleDot && c in MiddleDots ==> MapChar(o, c) == MiddleDotTarget
    ensures o.brackets && c == FullWidthOpenParen ==> MapChar(o, c) == '('
    ensures o.brackets && c == FullWidthCloseParen ==> MapChar(o, c) == ')'
    ensures o.colon && c == ':' ==> MapChar(o, c) == FullWidthColon
    ensures o.slash && c == '/' ==> MapChar(o, c) == FullWidthSlash
  {
    var c2 := StageChar(c, o.waveDash, WaveDashes, WaveDashTarget);
    var c3 := StageChar(c2, o.dash, Dashes, '-');
    var c4 := StageChar(c3, o.middleDot, MiddleDots, MiddleDotTarget);
    var c5 := StageChar(c4, o.brackets, {FullWidthOpenParen}, '(');
    var c5a := StageChar(c5, o.brackets, {FullWidthCloseParen}, ')');
    var c6 := StageChar(c5a, o.colon, {':'}, FullWidthColon);
    assert MapChar(o, c) == StageChar(c6, o.slash, {'/'}, FullWidthSlash);
    if o.waveDash && c in WaveDashes {
      TargetUntouchedAfter(o, WaveDashTarget, 1);
      assert c2 == WaveDashTarget && c3 == c2 && c4 == c3 && c5 == c4 && c5a == c5 && c6 == c5a;
    } else if o.dash && c in Dashes {
      TargetUntouchedAfter(o, '-', 2);
      assert c2 == c && c3 == '-' && c4 == c3 && c5 == c4 && c5a == c5 && c6 == c5a;
    } else if o.middleDot && c in MiddleDots {
      TargetUntouchedAfter(o, MiddleDotTarget, 3);
      assert c2 == c && c3 == c && c4 == MiddleDotTarget && c5 == c4 && c5a == c5 && c6 == c5a;
    }
  }

  /**
   * A character that stage `k` (1 waveDash, 2 dash, 3 middleDot) produces is
   * listed by none of the later stages.
   */
  lemma TargetUntouchedAfter(o: NormalizationOptions, t: char, k: nat)
    requires (k == 1 && t == WaveDashTarget) || (k == 2 && t == '-') || (k == 3 && t == MiddleDotTarget)
    ensures k < 2 ==> StageChar(t, o.dash, Dashes, '-') == t
    ensures k < 3 ==> StageChar(t, o.middleDot, MiddleDots, MiddleDotTarget) == t
    ensures StageChar(t, o.brackets, {FullWidthOpenParen}, '(') == t
    ensures StageChar(t, o.brackets, {FullWidthCloseParen}, ')') == t
    ensures StageChar(t, o.colon, {':'}, FullWidthColon) == t
    ensures StageChar(t, o.slash, {'/'}, FullWidthSlash) == t
  {
  }

  /**
   * Without `space`, every character an enabled map lists ends up as that map's
   * target, in place: no later map touches an earlier map's target.
   */
  lemma ListedCharactersBecomeTargets(nfkc: Nfkc, input: string, options: NormalizationOptions)
    requires !options.space
    ensures |ApplyNormalization(nfkc, input, options)| == |nfkc(input)|
    ensures forall i :: 0 <= i < |nfkc(input)| && options.waveDash && nfkc(input)[i] in WaveDashes ==>
      ApplyNormalization(nfkc, input, options)[i] == WaveDashTarget
    ensures forall i :: 0 <= i < |nfkc(input)| && options.dash && nfkc(input)[i] in Dashes ==>
      ApplyNormalization(nfkc, input, options)[i] == '-'
    ensures forall i :: 0 <= i < |nfkc(input)| && options.middleDot && nfkc(input)[i] in MiddleDots ==>
      ApplyNormalization(nfkc, input, options)[i] == MiddleDotTarget
    ensures forall i :: 0 <= i < |nfkc(input)| && options.brackets && nfkc(input)[i] == FullWidthOpenParen ==>
      ApplyNormalization(nfkc, input, options)[i] == '('
    ensures forall i :: 0 <= i < |nfkc(input)| && options.brackets && nfkc(input)[i] == FullWidthCloseParen ==>
      ApplyNormalization(nfkc, input, options)[i] == ')'
    ensures forall i :: 0 <= i < |nfkc(input)| && options.colon && nfkc(input)[i] == ':' ==>
      ApplyNormalization(nfkc, input, options)[i] == FullWidthColon
    ensures forall i :: 0 <= i < |nfkc(input)| && options.slash && nfkc(input)[i] == '/' ==>
      ApplyNormalization(nfkc, input, options)[i] == FullWidthSlash
  {
    PerCharacter(nfkc, input, options);
    forall i | 0 <= i < |nfkc(input)| {
      TargetsSurvive(options, nfkc(input)[i]);
    }
  }
}
