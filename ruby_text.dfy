/**
 * The few Ruby string and array operations the webhook handler relies on,
 * with Ruby's own edge cases: `String#end_with?`, `String#split` with a
 * one-character separator (trailing empty fields are dropped), and
 * `Array#last` / `Array#[]` (nil past the end).
 */
module RubyText {
  import opened Wrappers

  lemma ConcatAssoc<T>(x: seq<T>, y: seq<T>, z: seq<T>)
    ensures x + (y + z) == (x + y) + z
  {
  }

  /** `s.end_with?(suffix)` */
  predicate EndsWith(s: string, suffix: string)
  {
    |suffix| <= |s| && s[|s| - |suffix|..] == suffix
  }

  lemma EndsWithConcat(prefix: string, suffix: string)
    ensures EndsWith(prefix + suffix, suffix)
  {
    assert (prefix + suffix)[|prefix|..] == suffix;
  }

  lemma EndsWithTransitive(s: string, mid: string, suffix: string)
    requires EndsWith(s, mid) && EndsWith(mid, suffix)
    ensures EndsWith(s, suffix)
  {
    var k := |s| - |mid|;
    assert s[|s| - |suffix|..] == s[k..][|mid| - |suffix|..];
  }

  /**
   * The fields of `s` between occurrences of `sep`, every empty field kept:
   * "a//b" gives ["a", "", "b"], "" gives [""].
   */
  function RawSplit(s: string, sep: char): (fields: seq<string>)
    ensures |fields| >= 1
    ensures forall i :: 0 <= i < |fields| ==> sep !in fields[i]
    decreases |s|
  {
    if s == [] then [[]]
    else
      var rest := RawSplit(s[1..], sep);
      assert s == [s[0]] + s[1..];
      if s[0] == sep then [[]] + rest
      else [[s[0]] + rest[0]] + rest[1..]
  }

  /** `fields.join(sep)` */
  function Join(fields: seq<string>, sep: char): string
    requires |fields| >= 1
  {
    if |fields| == 1 then fields[0] else fields[0] + [sep] + Join(fields[1..], sep)
  }

  lemma {:induction false} JoinRawSplit(s: string, sep: char)
    ensures Join(RawSplit(s, sep), sep) == s
    decreases |s|
  {
    if s != [] {
      JoinRawSplit(s[1..], sep);
      JoinRawSplitStep(s, sep);
    }
  }

  /** One character in front: the step of JoinRawSplit. */
  lemma JoinRawSplitStep(s: string, sep: char)
    requires s != []
    requires Join(RawSplit(s[1..], sep), sep) == s[1..]
    ensures Join(RawSplit(s, sep), sep) == s
  {
    var rest := RawSplit(s[1..], sep);
    var fields := RawSplit(s, sep);
    assert s == [s[0]] + s[1..];
    if s[0] == sep {
      assert fields == [[]] + rest;
      JoinCons([], rest, sep);
    } else {
      assert fields == [[s[0]] + rest[0]] + rest[1..];
      JoinExtendFirst([s[0]], rest, sep);
    }
  }

  lemma JoinCons(f: string, rest: seq<string>, sep: char)
    requires |rest| >= 1
    ensures Join([f] + rest, sep) == f + [sep] + Join(rest, sep)
  {
    assert ([f] + rest)[1..] == rest;
  }

  lemma JoinExtendFirst(c: string, fields: seq<string>, sep: char)
    requires |fields| >= 1
    ensures Join([c + fields[0]] + fields[1..], sep) == c + Join(fields, sep)
  {
    if |fields| > 1 {
      JoinCons(c + fields[0], fields[1..], sep);
    }
  }

  /** A string without the separator is a single field. */
  lemma {:induction false} RawSplitNoSeparator(s: string, sep: char)
    requires sep !in s
    ensures RawSplit(s, sep) == [s]
    decreases |s|
  {
    if s != [] {
      assert sep !in s[1..];
      RawSplitNoSeparator(s[1..], sep);
      assert s == [s[0]] + s[1..];
    }
  }

  /** How many times `c` occurs in `s`. */
  function Occurrences(s: string, c: char): nat
  {
    if s == [] then 0 else (if s[0] == c then 1 else 0) + Occurrences(s[1..], c)
  }

  /** There is one field more than there are separators. */
  lemma {:induction false} RawSplitCount(s: string, sep: char)
    ensures |RawSplit(s, sep)| == Occurrences(s, sep) + 1
    decreases |s|
  {
    if s != [] {
      RawSplitCount(s[1..], sep);
    }
  }

  /** Splitting distributes over a separator: the fields of `p + sep + q` are those of `p` followed by those of `q`. */
  lemma {:induction false} RawSplitAtSeparator(p: string, q: string, sep: char)
    ensures RawSplit(p + [sep] + q, sep) == RawSplit(p, sep) + RawSplit(q, sep)
    decreases |p|
  {
    var s := p + [sep] + q;
    if p == [] {
      assert s[1..] == q;
    } else {
      assert s[1..] == p[1..] + [sep] + q;
      RawSplitAtSeparator(p[1..], q, sep);
    }
  }

  /** Splitting a join of separator-free fields gives the fields back. */
  lemma {:induction false} RawSplitJoin(fields: seq<string>, sep: char)
    requires |fields| >= 1
    requires forall i :: 0 <= i < |fields| ==> sep !in fields[i]
    ensures RawSplit(Join(fields, sep), sep) == fields
    decreases |fields|
  {
    RawSplitNoSeparator(fields[0], sep);
    if |fields| > 1 {
      var rest := fields[1..];
      forall i | 0 <= i < |rest| ensures sep !in rest[i] {
        assert rest[i] == fields[i + 1];
      }
      RawSplitJoin(rest, sep);
      RawSplitAtSeparator(fields[0], Join(rest, sep), sep);
      assert Join(fields, sep) == fields[0] + [sep] + Join(rest, sep);
      assert fields == [fields[0]] + rest;
    }
  }

  /** Ruby's `split` drops the empty fields at the end of the array. */
  function DropTrailingEmpty(fields: seq<string>): (r: seq<string>)
    ensures |r| <= |fields| && r == fields[..|r|]
    ensures r == [] || r[|r| - 1] != []
    ensures forall i :: |r| <= i < |fields| ==> fields[i] == []
    decreases |fields|
  {
    if fields == [] then []
    else if fields[|fields| - 1] == [] then DropTrailingEmpty(fields[..|fields| - 1])
    else fields
  }

  lemma DropTrailingEmptyOfNonEmptyLast(fields: seq<string>)
    requires fields != [] && fields[|fields| - 1] != []
    ensures DropTrailingEmpty(fields) == fields
  {
  }

  /** An empty field at the end makes no difference to Ruby's `split`. */
  lemma DropTrailingEmptyAppendEmpty(fields: seq<string>)
    ensures DropTrailingEmpty(fields + [[]]) == DropTrailingEmpty(fields)
  {
    assert (fields + [[]])[..|fields|] == fields;
  }

  /** `s.split(sep)` for a one-character, non-space separator. */
  function Split(s: string, sep: char): (fields: seq<string>)
  {
    DropTrailingEmpty(RawSplit(s, sep))
  }

  /** `"a=b".split('=') == ["a", "b"]` whenever both sides are free of the separator and `b` is non-empty. */
  lemma SplitPair(a: string, b: string, sep: char)
    requires sep !in a && sep !in b && b != []
    ensures Split(a + [sep] + b, sep) == [a, b]
  {
    RawSplitNoSeparator(a, sep);
    RawSplitNoSeparator(b, sep);
    RawSplitAtSeparator(a, b, sep);
    DropTrailingEmptyOfNonEmptyLast([a, b]);
  }

  /** `"a=".split('=')` is `["a"]` for a non-empty separator-free `a`, and `[]` for an empty one. */
  lemma SplitTrailingSeparator(a: string, sep: char)
    requires sep !in a
    ensures Split(a + [sep], sep) == if a == [] then [] else [a]
  {
    RawSplitNoSeparator(a, sep);
    RawSplitNoSeparator([], sep);
    assert a + [sep] == a + [sep] + [];
    RawSplitAtSeparator(a, [], sep);
    DropTrailingEmptyAppendEmpty([a]);
    if a == [] {
      assert DropTrailingEmpty([a]) == DropTrailingEmpty([]);
    }
  }

  /** Every character of `s` is the separator; true of the empty string. */
  predicate OnlySeparators(s: string, sep: char)
  {
    forall i :: 0 <= i < |s| ==> s[i] == sep
  }

  /** Every field is empty; true of no fields at all. */
  predicate AllEmpty(fields: seq<string>)
  {
    forall i :: 0 <= i < |fields| ==> fields[i] == []
  }

  /** Every field is empty exactly when the string is made of separators only. */
  lemma {:induction false} RawSplitAllEmpty(s: string, sep: char)
    ensures AllEmpty(RawSplit(s, sep)) <==> OnlySeparators(s, sep)
    decreases |s|
  {
    if s != [] {
      RawSplitAllEmpty(s[1..], sep);
      var rest := RawSplit(s[1..], sep);
      var fields := RawSplit(s, sep);
      if s[0] == sep {
        assert fields == [[]] + rest;
        assert AllEmpty(fields) <==> AllEmpty(rest) by {
          assert fields[0] == [];
          forall i | 0 < i < |fields| ensures fields[i] == rest[i - 1] { }
          forall i | 0 <= i < |rest| ensures rest[i] == fields[i + 1] { }
        }
        assert OnlySeparators(s, sep) <==> OnlySeparators(s[1..], sep) by {
          forall i | 0 < i < |s| ensures s[i] == s[1..][i - 1] { }
        }
      } else {
        assert fields[0] == [s[0]] + rest[0];
        assert !AllEmpty(fields);
      }
    }
  }

  /**
   * `s.split(sep)` is empty exactly when `s` is made of separators only
   * (the empty string included): then `.last` and `[0]` are nil.
   */
  lemma SplitEmpty(s: string, sep: char)
    ensures Split(s, sep) == [] <==> OnlySeparators(s, sep)
  {
    RawSplitAllEmpty(s, sep);
    var fields := RawSplit(s, sep);
    var r := Split(s, sep);
    assert r == DropTrailingEmpty(fields);
    if r != [] {
      assert fields[|r| - 1] == r[|r| - 1] != [];
      assert !AllEmpty(fields);
    } else {
      assert AllEmpty(fields) by {
        forall i | 0 <= i < |fields| ensures fields[i] == [] {
          assert |r| <= i < |fields|;
        }
      }
    }
  }

  /**
   * Fields after the second never matter to the first two: the split of
   * `a=b=rest` starts with `a` and `b` whatever `rest` is, as long as `b` is
   * non-empty.
   */
  lemma SplitFirstTwo(a: string, b: string, rest: string, sep: char)
    requires sep !in a && sep !in b && b != []
    ensures |Split(a + [sep] + b + [sep] + rest, sep)| >= 2
    ensures Split(a + [sep] + b + [sep] + rest, sep)[..2] == [a, b]
  {
    var s := a + [sep] + b + [sep] + rest;
    RawSplitNoSeparator(a, sep);
    RawSplitNoSeparator(b, sep);
    assert s == a + [sep] + (b + [sep] + rest);
    RawSplitAtSeparator(a, b + [sep] + rest, sep);
    RawSplitAtSeparator(b, rest, sep);
    var fields := RawSplit(s, sep);
    assert fields == [a, b] + RawSplit(rest, sep);
    var r := DropTrailingEmpty(fields);
    assert fields[1] != [];
    assert r[..2] == fields[..2];
  }

  /** `xs[i]`, nil past the end. */
  function At<T>(xs: seq<T>, i: nat): (r: Option<T>)
    ensures r.Some? <==> i < |xs|
    ensures r.Some? ==> r.value == xs[i]
  {
    if i < |xs| then Some(xs[i]) else None
  }

  /** `xs.last`, nil for an empty array. */
  function Last<T>(xs: seq<T>): (r: Option<T>)
    ensures r.Some? <==> xs != []
    ensures r.Some? ==> r.value == xs[|xs| - 1]
  {
    if xs == [] then None else Some(xs[|xs| - 1])
  }
}
