/** The regular-expression rewrites `inflect_column_name` is built from, and the
    two functions of the `inflection` library it calls (`underscore` and
    `camelize`). Each `re.sub` is a left-to-right scan that, at each position,
    either rewrites one non-overlapping match and resumes after it, or copies
    one character. */
module Inflection {
  import opened Text

  predicate NotUnderscore(c: char) { c != '_' }
  predicate NotLower(c: char) { !IsLower(c) }

  /** `s` with every underscore removed. */
  function Strip(s: string): string {
    Filter(NotUnderscore, s)
  }

  /** The characters a pass may add are underscores only. */
  predicate InsertsOnlyUnderscores(s: string, r: string) {
    Strip(r) == Strip(s) && |r| >= |s| && (AllWordChars(s) ==> AllWordChars(r))
  }

  /** Length of the run of upper-case letters that starts `s`. */
  function UpperRun(s: string): (n: nat)
    ensures n <= |s|
    ensures forall i :: 0 <= i < n ==> IsUpper(s[i])
    ensures n < |s| ==> !IsUpper(s[n])
  {
    if |s| > 0 && IsUpper(s[0]) then 1 + UpperRun(s[1..]) else 0
  }

  /** `re.sub(r"([A-Z]+)_([A-Z][a-z])", r"\1__\2", s)`. */
  function DoubleAfterAcronym(s: string): string
    decreases |s|
  {
    if |s| == 0 then ""
    else
      var n := UpperRun(s);
      if 0 < n && n + 2 < |s| && s[n] == '_' && IsUpper(s[n + 1]) && IsLower(s[n + 2]) then
        s[..n] + "__" + s[n + 1..n + 3] + DoubleAfterAcronym(s[n + 3..])
      else [s[0]] + DoubleAfterAcronym(s[1..])
  }

  /** `re.sub(r"([a-z\d])_([A-Z])", r"\1__\2", s)`. */
  function DoubleBeforeCapital(s: string): string
    decreases |s|
  {
    if |s| >= 3 && (IsLower(s[0]) || IsDigit(s[0])) && s[1] == '_' && IsUpper(s[2]) then
      [s[0]] + "__" + [s[2]] + DoubleBeforeCapital(s[3..])
    else if |s| == 0 then ""
    else [s[0]] + DoubleBeforeCapital(s[1..])
  }

  /** Length of the run of characters outside `[0-9a-zA-Z_]` that starts `s`. */
  function SpecialRun(s: string): (n: nat)
    ensures n <= |s|
    ensures forall i :: 0 <= i < n ==> !IsWordChar(s[i])
    ensures n < |s| ==> IsWordChar(s[n])
  {
    if |s| > 0 && !IsWordChar(s[0]) then 1 + SpecialRun(s[1..]) else 0
  }

  /** `re.sub("[^0-9a-zA-Z_]+", "_", s)`: every maximal run of other characters
      becomes one underscore. */
  function CollapseSpecials(s: string): (r: string)
    ensures AllWordChars(r)
    ensures |r| <= |s|
    decreases |s|
  {
    if |s| == 0 then ""
    else if IsWordChar(s[0]) then [s[0]] + CollapseSpecials(s[1..])
    else "_" + CollapseSpecials(s[SpecialRun(s)..])
  }

  /** `re.sub(r"([A-Z]+)([A-Z][a-z])", r"\1_\2", s)`, the first pass of `underscore`. */
  function SplitAcronym(s: string): string
    decreases |s|
  {
    if |s| == 0 then ""
    else
      var n := UpperRun(s);
      if 2 <= n < |s| && IsLower(s[n]) then
        s[..n - 1] + "_" + s[n - 1..n + 1] + SplitAcronym(s[n + 1..])
      else [s[0]] + SplitAcronym(s[1..])
  }

  /** `re.sub(r"([a-z\d])([A-Z])", r"\1_\2", s)`, the second pass of `underscore`. */
  function SplitCamel(s: string): string
    decreases |s|
  {
    if |s| >= 2 && (IsLower(s[0]) || IsDigit(s[0])) && IsUpper(s[1]) then
      [s[0]] + "_" + [s[1]] + SplitCamel(s[2..])
    else if |s| == 0 then ""
    else [s[0]] + SplitCamel(s[1..])
  }

  /** `s.replace("-", "_")`. */
  function DashToUnderscore(s: string): (r: string)
    ensures |r| == |s|
    ensures forall i :: 0 <= i < |s| ==> r[i] == (if s[i] == '-' then '_' else s[i])
  {
    seq(|s|, i requires 0 <= i < |s| => if s[i] == '-' then '_' else s[i])
  }

  /** `inflection.underscore`. */
  function Underscore(s: string): string {
    Lower(DashToUnderscore(SplitCamel(SplitAcronym(s))))
  }

  /** The part of `camelize` after position 0: `_` followed by any character
      but a newline becomes that character upper-cased. */
  function CamelizeRest(s: string): (r: string)
    ensures |r| <= |s|
    decreases |s|
  {
    if |s| >= 2 && s[0] == '_' && s[1] != '\n' then [UpperChar(s[1])] + CamelizeRest(s[2..])
    else if |s| == 0 then ""
    else [s[0]] + CamelizeRest(s[1..])
  }

  /** `inflection.camelize`: `re.sub(r"(?:^|_)(.)", upper, s)`. */
  function Camelize(s: string): (r: string)
    ensures |r| <= |s|
  {
    if |s| > 0 && s[0] != '\n' then [UpperChar(s[0])] + CamelizeRest(s[1..])
    else CamelizeRest(s)
  }

  // ---------------------------------------------------------------------
  // What the passes keep

  lemma StripSplit3(a: string, b: string, c: string)
    ensures Strip(a + b + c) == Strip(a) + Strip(b) + Strip(c)
  {
    FilterConcat(NotUnderscore, a + b, c);
    FilterConcat(NotUnderscore, a, b);
  }

  lemma StripUnderscores(s: string)
    requires forall i :: 0 <= i < |s| ==> s[i] == '_'
    ensures Strip(s) == ""
  {
    FilterNone(NotUnderscore, s);
  }

  /** Removing underscores and then keeping letters and digits is keeping
      letters and digits. */
  lemma {:induction false} AlnumsOfStrip(s: string)
    ensures Alnums(Strip(s)) == Alnums(s)
  {
    if |s| > 0 {
      AlnumsOfStrip(s[1..]);
      assert s == [s[0]] + s[1..];
      AlnumsConcat([s[0]], s[1..]);
      if s[0] != '_' {
        assert Strip(s) == [s[0]] + Strip(s[1..]);
        AlnumsConcat([s[0]], Strip(s[1..]));
      } else {
        assert Strip(s) == Strip(s[1..]);
        assert Alnums([s[0]]) == "";
      }
    }
  }

  lemma InsertsOnlyUnderscoresKeepsAlnums(s: string, r: string)
    requires InsertsOnlyUnderscores(s, r)
    ensures Alnums(r) == Alnums(s)
  {
    AlnumsOfStrip(s);
    AlnumsOfStrip(r);
  }

  /** A rewrite `s[..k] + ins + s[j..] + rest` of `s` with `rest` an
      underscore-only extension of `s[j..]` is itself one, when `ins` is
      `s[k..j]` with extra underscores. */
  lemma Splice(s: string, k: int, j: int, ins: string, rest: string)
    requires 0 <= k <= j <= |s|
    requires InsertsOnlyUnderscores(s[k..j], ins)
    requires InsertsOnlyUnderscores(s[j..], rest)
    ensures InsertsOnlyUnderscores(s, s[..k] + ins + rest)
  {
    assert s == s[..k] + s[k..j] + s[j..];
    StripSplit3(s[..k], s[k..j], s[j..]);
    StripSplit3(s[..k], ins, rest);
    var r := s[..k] + ins + rest;
    if AllWordChars(s) {
      assert AllWordChars(s[k..j]) && AllWordChars(s[j..]);
      forall i | 0 <= i < |r|
        ensures IsWordChar(r[i])
      {
        if i < k {
          assert r[i] == s[i];
        } else if i < k + |ins| {
          assert r[i] == ins[i - k];
        } else {
          assert r[i] == rest[i - k - |ins|];
        }
      }
    }
  }

  /** Inserting one underscore is an underscore-only extension. */
  lemma InsertUnderscoreAt(x: string, p: int)
    requires 0 <= p <= |x|
    ensures InsertsOnlyUnderscores(x, x[..p] + "_" + x[p..])
  {
    assert x == x[..p] + x[p..];
    StripSplit3(x[..p], "_", x[p..]);
    StripUnderscores("_");
    FilterConcat(NotUnderscore, x[..p], x[p..]);
    var r := x[..p] + "_" + x[p..];
    if AllWordChars(x) {
      forall i | 0 <= i < |r|
        ensures IsWordChar(r[i])
      {
        if i < p {
          assert r[i] == x[i];
        } else if i > p {
          assert r[i] == x[i - 1];
        }
      }
    }
  }

  lemma CopyFirst(s: string)
    requires |s| > 0
    ensures InsertsOnlyUnderscores(s[0..1], [s[0]])
  {
    assert s[0..1] == [s[0]];
  }

  lemma {:induction false} DoubleAfterAcronymInsertsOnlyUnderscores(s: string)
    ensures InsertsOnlyUnderscores(s, DoubleAfterAcronym(s))
    decreases |s|
  {
    if |s| > 0 {
      var n := UpperRun(s);
      if 0 < n && n + 2 < |s| && s[n] == '_' && IsUpper(s[n + 1]) && IsLower(s[n + 2]) {
        DoubleAfterAcronymInsertsOnlyUnderscores(s[n + 3..]);
        var piece := s[n..n + 3];
        var ins := "__" + s[n + 1..n + 3];
        InsertUnderscoreAt(piece, 0);
        assert piece[..0] + "_" + piece[0..] == ins;
        Splice(s, n, n + 3, ins, DoubleAfterAcronym(s[n + 3..]));
        ConcatAssoc(s[..n], "__", s[n + 1..n + 3], DoubleAfterAcronym(s[n + 3..]));
      } else {
        DoubleAfterAcronymInsertsOnlyUnderscores(s[1..]);
        CopyFirst(s);
        Splice(s, 0, 1, [s[0]], DoubleAfterAcronym(s[1..]));
        assert s[..0] + [s[0]] + DoubleAfterAcronym(s[1..]) == DoubleAfterAcronym(s);
      }
    }
  }

  lemma {:induction false} DoubleBeforeCapitalInsertsOnlyUnderscores(s: string)
    ensures InsertsOnlyUnderscores(s, DoubleBeforeCapital(s))
    decreases |s|
  {
    if |s| >= 3 && (IsLower(s[0]) || IsDigit(s[0])) && s[1] == '_' && IsUpper(s[2]) {
      DoubleBeforeCapitalInsertsOnlyUnderscores(s[3..]);
      var piece := s[0..3];
      var ins := [s[0]] + "__" + [s[2]];
      InsertUnderscoreAt(piece, 1);
      assert piece[..1] + "_" + piece[1..] == ins;
      Splice(s, 0, 3, ins, DoubleBeforeCapital(s[3..]));
      assert s[..0] + ins + DoubleBeforeCapital(s[3..]) == DoubleBeforeCapital(s);
    } else if |s| > 0 {
      DoubleBeforeCapitalInsertsOnlyUnderscores(s[1..]);
      CopyFirst(s);
      Splice(s, 0, 1, [s[0]], DoubleBeforeCapital(s[1..]));
      assert s[..0] + [s[0]] + DoubleBeforeCapital(s[1..]) == DoubleBeforeCapital(s);
    }
  }

  lemma {:induction false} SplitAcronymInsertsOnlyUnderscores(s: string)
    ensures InsertsOnlyUnderscores(s, SplitAcronym(s))
    decreases |s|
  {
    if |s| > 0 {
      var n := UpperRun(s);
      if 2 <= n < |s| && IsLower(s[n]) {
        SplitAcronymInsertsOnlyUnderscores(s[n + 1..]);
        SplitAcronymMatch(s, n);
      } else {
        SplitAcronymInsertsOnlyUnderscores(s[1..]);
        CopyFirst(s);
        Splice(s, 0, 1, [s[0]], SplitAcronym(s[1..]));
        assert s[..0] + [s[0]] + SplitAcronym(s[1..]) == SplitAcronym(s);
      }
    }
  }

  lemma SplitAcronymMatch(s: string, n: nat)
    requires 2 <= n < |s| && n == UpperRun(s) && IsLower(s[n])
    requires InsertsOnlyUnderscores(s[n + 1..], SplitAcronym(s[n + 1..]))
    ensures InsertsOnlyUnderscores(s, SplitAcronym(s))
  {
    SplitAcronymUnfold(s, n);
    InsertUnderscoreFront(s[n - 1..n + 1]);
    Splice(s, n - 1, n + 1, "_" + s[n - 1..n + 1], SplitAcronym(s[n + 1..]));
  }

  lemma SplitAcronymUnfold(s: string, n: nat)
    requires 2 <= n < |s| && n == UpperRun(s) && IsLower(s[n])
    ensures SplitAcronym(s) == s[..n - 1] + ("_" + s[n - 1..n + 1]) + SplitAcronym(s[n + 1..])
  {
    ConcatAssoc(s[..n - 1], "_", s[n - 1..n + 1], SplitAcronym(s[n + 1..]));
  }

  lemma ConcatAssoc(a: string, b: string, c: string, d: string)
    ensures a + b + c + d == a + (b + c) + d
  {
  }

  lemma InsertUnderscoreFront(x: string)
    ensures InsertsOnlyUnderscores(x, "_" + x)
  {
    InsertUnderscoreAt(x, 0);
    assert x[..0] + "_" + x[0..] == "_" + x;
  }

  lemma {:induction false} SplitCamelInsertsOnlyUnderscores(s: string)
    ensures InsertsOnlyUnderscores(s, SplitCamel(s))
    decreases |s|
  {
    if |s| >= 2 && (IsLower(s[0]) || IsDigit(s[0])) && IsUpper(s[1]) {
      SplitCamelInsertsOnlyUnderscores(s[2..]);
      var piece := s[0..2];
      var ins := [s[0]] + "_" + [s[1]];
      InsertUnderscoreAt(piece, 1);
      assert piece[..1] + "_" + piece[1..] == ins;
      Splice(s, 0, 2, ins, SplitCamel(s[2..]));
      assert s[..0] + ins + SplitCamel(s[2..]) == SplitCamel(s);
    } else if |s| > 0 {
      SplitCamelInsertsOnlyUnderscores(s[1..]);
      CopyFirst(s);
      Splice(s, 0, 1, [s[0]], SplitCamel(s[1..]));
      assert s[..0] + [s[0]] + SplitCamel(s[1..]) == SplitCamel(s);
    }
  }

  /** Collapsing special runs keeps every letter and digit, in order. */
  lemma {:induction false} CollapseSpecialsKeepsAlnums(s: string)
    ensures Alnums(CollapseSpecials(s)) == Alnums(s)
    decreases |s|
  {
    if |s| > 0 {
      if IsWordChar(s[0]) {
        CollapseSpecialsKeepsAlnums(s[1..]);
        AlnumsConcat([s[0]], CollapseSpecials(s[1..]));
      } else {
        var n := SpecialRun(s);
        var t := s[n..];
        CollapseSpecialsKeepsAlnums(t);
        AlnumsConcat("_", CollapseSpecials(t));
        assert s == s[..n] + t;
        AlnumsConcat(s[..n], t);
        AlnumsOfNonAlnums(s[..n]);
        AlnumsOfNonAlnums("_");
      }
    }
  }

  /** On a name already made of `[0-9a-zA-Z_]` the collapse changes nothing. */
  lemma {:induction false} CollapseSpecialsIdentity(s: string)
    requires AllWordChars(s)
    ensures CollapseSpecials(s) == s
  {
    if |s| > 0 {
      CollapseSpecialsIdentity(s[1..]);
    }
  }

  lemma {:induction false} DashToUnderscoreKeepsAlnums(s: string)
    ensures Alnums(DashToUnderscore(s)) == Alnums(s)
  {
    if |s| > 0 {
      assert DashToUnderscore(s)[1..] == DashToUnderscore(s[1..]);
      DashToUnderscoreKeepsAlnums(s[1..]);
    }
  }

  /** `underscore` keeps the letters and digits, lower-cased, and maps a word
      made of `[0-9a-zA-Z_]` to one made of `[0-9a-z_]`. */
  lemma UnderscoreSpec(s: string)
    ensures Alnums(Underscore(s)) == Lower(Alnums(s))
    ensures AllWordChars(s) ==> AllSnakeChars(Underscore(s))
  {
    var a := SplitAcronym(s);
    var b := SplitCamel(a);
    var c := DashToUnderscore(b);
    SplitAcronymInsertsOnlyUnderscores(s);
    SplitCamelInsertsOnlyUnderscores(a);
    InsertsOnlyUnderscoresKeepsAlnums(s, a);
    InsertsOnlyUnderscoresKeepsAlnums(a, b);
    DashToUnderscoreKeepsAlnums(b);
    AlnumsLower(c);
    if AllWordChars(s) {
      assert forall i :: 0 <= i < |c| ==> c[i] == b[i];
    }
  }

  /** A string of digits is left alone by every pass. */
  predicate AllDigits(s: string) { forall i :: 0 <= i < |s| ==> IsDigit(s[i]) }

  lemma {:induction false} DigitsFixedByPasses(s: string)
    requires AllDigits(s)
    ensures DoubleAfterAcronym(s) == s && DoubleBeforeCapital(s) == s
    ensures SplitAcronym(s) == s && SplitCamel(s) == s && CamelizeRest(s) == s
  {
    if |s| > 0 {
      DigitsFixedByPasses(s[1..]);
      assert [s[0]] + s[1..] == s;
    }
  }

  lemma {:induction false} CamelizeRestWordChars(s: string)
    requires AllWordChars(s)
    ensures AllWordChars(CamelizeRest(s))
    decreases |s|
  {
    if |s| >= 2 && s[0] == '_' && s[1] != '\n' {
      CamelizeRestWordChars(s[2..]);
    } else if |s| > 0 {
      CamelizeRestWordChars(s[1..]);
    }
  }

  /** `camelize` turns a word made of `[0-9a-zA-Z_]` into another one. */
  lemma CamelizeWordChars(s: string)
    requires AllWordChars(s)
    ensures AllWordChars(Camelize(s))
  {
    if |s| > 0 {
      CamelizeRestWordChars(s[1..]);
    } else {
      CamelizeRestWordChars(s);
    }
  }
}
