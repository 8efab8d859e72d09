/** Column identifiers: `inflect_column_name` normalises one property name and
    `flatten_key` joins a property path, abbreviating outer segments while the
    joined name is 63 characters or longer. */
module Naming {
  import opened Text
  import opened Inflection

  /** The identifier length at which `flatten_key` starts abbreviating. */
  const MaxIdentifier: nat := 63

  /** `inflect_column_name`: split `ABC_Def` and `a_B` boundaries with a double
      underscore, collapse every run of characters outside `[0-9a-zA-Z_]` to one
      underscore, then apply `inflection.underscore`. */
  function InflectColumnName(name: string): string {
    Underscore(CollapseSpecials(DoubleBeforeCapital(DoubleAfterAcronym(name))))
  }

  /** An inflected name is made of `[0-9a-z_]`, and its letters and digits are
      exactly those of the raw name, lower-cased and in order. */
  lemma InflectColumnNameSpec(name: string)
    ensures AllSnakeChars(InflectColumnName(name))
    ensures Alnums(InflectColumnName(name)) == Lower(Alnums(name))
  {
    var a := DoubleAfterAcronym(name);
    var b := DoubleBeforeCapital(a);
    var c := CollapseSpecials(b);
    DoubleAfterAcronymInsertsOnlyUnderscores(name);
    InsertsOnlyUnderscoresKeepsAlnums(name, a);
    DoubleBeforeCapitalInsertsOnlyUnderscores(a);
    InsertsOnlyUnderscoresKeepsAlnums(a, b);
    CollapseSpecialsKeepsAlnums(b);
    UnderscoreSpec(c);
  }

  function Min(a: int, b: int): int { if a <= b then a else b }

  /** One step of the abbreviation loop: the capitals of the camel-cased
      segment (its word initials), lower-cased, unless that leaves at most one
      character, in which case the segment's first three characters. */
  function Abbreviate(seg: string): (r: string)
    ensures |r| <= |seg|
    ensures |r| == 0 <==> |seg| == 0
    ensures AllWordChars(seg) ==> AllSnakeChars(r)
  {
    var initials := Filter(NotLower, Camelize(seg));
    var chosen := if |initials| > 1 then initials else seg[..Min(3, |seg|)];
    assert AllWordChars(seg) ==> AllWordChars(chosen) by {
      if AllWordChars(seg) {
        CamelizeWordChars(seg);
        FilterKeepsWordChars(Camelize(seg));
      }
    }
    Lower(chosen)
  }

  lemma {:induction false} FilterKeepsWordChars(s: string)
    requires AllWordChars(s)
    ensures AllWordChars(Filter(NotLower, s))
  {
    if |s| > 0 {
      FilterKeepsWordChars(s[1..]);
    }
  }

  /** The path with its first `n` segments abbreviated. */
  function AbbreviateFirst(segs: seq<string>, n: nat): (r: seq<string>)
    requires n <= |segs|
    ensures |r| == |segs|
  {
    seq(|segs|, i requires 0 <= i < |segs| => if i < n then Abbreviate(segs[i]) else segs[i])
  }

  /** The abbreviation loop of `flatten_key`, from `reducer_index == i`. */
  function ReduceFrom(segs: seq<string>, i: nat, sep: string): seq<string>
    requires i <= |segs|
    decreases |segs| - i
  {
    if |Join(segs, sep)| >= MaxIdentifier && i < |segs| then
      ReduceFrom(segs[i := Abbreviate(segs[i])], i + 1, sep)
    else segs
  }

  /** Every segment of a path inflected. */
  function InflectPath(path: seq<string>): (r: seq<string>)
    ensures |r| == |path|
  {
    seq(|path|, i requires 0 <= i < |path| => InflectColumnName(path[i]))
  }

  /** `flatten_key(k, parent_key, sep)`. */
  function FlattenKey(k: string, parent: seq<string>, sep: string): string {
    Join(ReduceFrom(InflectPath(parent + [k]), 0, sep), sep)
  }

  /** The loop abbreviates a prefix of the path, outermost segment first, and
      stops at the first prefix length that brings the join under the limit,
      or once every segment is abbreviated. */
  lemma {:induction false} ReduceFromAbbreviatesPrefix(orig: seq<string>, i: nat, sep: string) returns (n: nat)
    requires i <= |orig|
    requires forall m :: 0 <= m < i ==> |Join(AbbreviateFirst(orig, m), sep)| >= MaxIdentifier
    ensures i <= n <= |orig|
    ensures ReduceFrom(AbbreviateFirst(orig, i), i, sep) == AbbreviateFirst(orig, n)
    ensures n == |orig| || |Join(AbbreviateFirst(orig, n), sep)| < MaxIdentifier
    ensures forall m :: 0 <= m < n ==> |Join(AbbreviateFirst(orig, m), sep)| >= MaxIdentifier
    decreases |orig| - i
  {
    if |Join(AbbreviateFirst(orig, i), sep)| >= MaxIdentifier && i < |orig| {
      LongPrefixExtend(orig, i, sep);
      ReduceFromStep(orig, i, sep);
      n := ReduceFromAbbreviatesPrefix(orig, i + 1, sep);
    } else {
      ReduceFromStop(orig, i, sep);
      n := i;
    }
  }

  lemma LongPrefixExtend(orig: seq<string>, i: nat, sep: string)
    requires i < |orig| && |Join(AbbreviateFirst(orig, i), sep)| >= MaxIdentifier
    requires forall m :: 0 <= m < i ==> |Join(AbbreviateFirst(orig, m), sep)| >= MaxIdentifier
    ensures forall m :: 0 <= m < i + 1 ==> |Join(AbbreviateFirst(orig, m), sep)| >= MaxIdentifier
  {
  }

  /** The loop stops once the join is short enough or every segment is
      abbreviated. */
  lemma ReduceFromStop(orig: seq<string>, i: nat, sep: string)
    requires i <= |orig|
    requires !(|Join(AbbreviateFirst(orig, i), sep)| >= MaxIdentifier && i < |orig|)
    ensures ReduceFrom(AbbreviateFirst(orig, i), i, sep) == AbbreviateFirst(orig, i)
  {
  }

  /** One turn of the loop abbreviates the next segment. */
  lemma ReduceFromStep(orig: seq<string>, i: nat, sep: string)
    requires i < |orig| && |Join(AbbreviateFirst(orig, i), sep)| >= MaxIdentifier
    ensures ReduceFrom(AbbreviateFirst(orig, i), i, sep) == ReduceFrom(AbbreviateFirst(orig, i + 1), i + 1, sep)
  {
    AbbreviateOneMore(orig, i);
  }

  lemma AbbreviateOneMore(orig: seq<string>, i: nat)
    requires i < |orig|
    ensures AbbreviateFirst(orig, i)[i := Abbreviate(AbbreviateFirst(orig, i)[i])] == AbbreviateFirst(orig, i + 1)
  {
  }

  lemma AbbreviateNone(segs: seq<string>)
    ensures AbbreviateFirst(segs, 0) == segs
  {
  }

  /** `flatten_key` joins the inflected path with its first `n` segments
      abbreviated, where `n` is the smallest count whose join is shorter than
      63 characters, or the whole path if there is none. */
  lemma FlattenKeySpec(k: string, parent: seq<string>, sep: string)
    ensures var segs := InflectPath(parent + [k]);
      exists n :: 0 <= n <= |segs|
        && FlattenKey(k, parent, sep) == Join(AbbreviateFirst(segs, n), sep)
        && (n == |segs| || |FlattenKey(k, parent, sep)| < MaxIdentifier)
        && forall m :: 0 <= m < n ==> |Join(AbbreviateFirst(segs, m), sep)| >= MaxIdentifier
  {
    var segs := InflectPath(parent + [k]);
    AbbreviateNone(segs);
    var n := ReduceFromAbbreviatesPrefix(segs, 0, sep);
  }

  /** A path whose inflected join is already short is not abbreviated. */
  lemma FlattenKeyShort(k: string, parent: seq<string>, sep: string)
    requires |Join(InflectPath(parent + [k]), sep)| < MaxIdentifier
    ensures FlattenKey(k, parent, sep) == Join(InflectPath(parent + [k]), sep)
  {
  }

  /** Abbreviation never lengthens the name. */
  lemma FlattenKeyNoLonger(k: string, parent: seq<string>, sep: string)
    ensures |FlattenKey(k, parent, sep)| <= |Join(InflectPath(parent + [k]), sep)|
  {
    var segs := InflectPath(parent + [k]);
    FlattenKeySpec(k, parent, sep);
    var n :| 0 <= n <= |segs| && FlattenKey(k, parent, sep) == Join(AbbreviateFirst(segs, n), sep);
    JoinLength(AbbreviateFirst(segs, n), segs, sep);
  }

  lemma {:induction false} JoinSnake(parts: seq<string>, sep: string)
    requires AllSnakeChars(sep)
    requires forall i :: 0 <= i < |parts| ==> AllSnakeChars(parts[i])
    ensures AllSnakeChars(Join(parts, sep))
  {
    if |parts| > 1 {
      JoinSnake(parts[1..], sep);
    }
  }

  /** Every flattened key is made of `[0-9a-z_]` when the separator is. */
  lemma FlattenKeySnake(k: string, parent: seq<string>, sep: string)
    requires AllSnakeChars(sep)
    ensures AllSnakeChars(FlattenKey(k, parent, sep))
  {
    var segs := InflectPath(parent + [k]);
    forall i | 0 <= i < |segs|
      ensures AllSnakeChars(segs[i])
    {
      InflectColumnNameSpec((parent + [k])[i]);
    }
    FlattenKeySpec(k, parent, sep);
    var n :| 0 <= n <= |segs| && FlattenKey(k, parent, sep) == Join(AbbreviateFirst(segs, n), sep);
    var a := AbbreviateFirst(segs, n);
    forall i | 0 <= i < |a|
      ensures AllSnakeChars(a[i])
    {
      if i < n {
        assert AllWordChars(segs[i]);
      }
    }
    JoinSnake(a, sep);
  }

  /** The 63-character bound is not a guarantee: a top-level key of 63 or more
      digits abbreviates to itself and comes out unshortened. */
  lemma LongDigitKeyKeepsLength(k: string, sep: string)
    requires |k| >= MaxIdentifier && AllDigits(k)
    ensures FlattenKey(k, [], sep) == k
  {
    DigitsFixedByPasses(k);
    assert AllWordChars(k);
    assert DoubleBeforeCapital(DoubleAfterAcronym(k)) == k;
    CollapseSpecialsIdentity(k);
    assert DashToUnderscore(k) == k;
    assert Lower(k) == k;
    assert InflectColumnName(k) == k;
    assert [] + [k] == [k];
    assert InflectPath([k]) == [k];
    assert Camelize(k) == k;
    FilterAll(NotLower, k);
    assert Abbreviate(k) == k;
    assert [k][0 := Abbreviate(k)] == [k];
    assert |Join([k], sep)| >= MaxIdentifier;
    assert ReduceFrom([k], 1, sep) == [k];
    assert ReduceFrom([k], 0, sep) == [k];
  }
}
