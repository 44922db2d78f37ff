/**
  The name of the directory that holds one candidate's simulation files:
  "lum_" followed by the first eleven rounded parameters joined by "_"
  (entry length, taper length and the nine upper-taper widths; the coupler
  spacing is not part of it).
*/
module CandidateKey {
  import opened Wrappers
  import opened Decimal

  const Prefix: string := "lum_"
  const Separator: char := '_'

  /** The number of parameters that the name records. */
  const KeyedParams: nat := 11

  /** `sep.join(parts)`. */
  function Join(parts: seq<string>, sep: char): string
  {
    if |parts| == 0 then ""
    else if |parts| == 1 then parts[0]
    else parts[0] + [sep] + Join(parts[1..], sep)
  }

  /** `s.split(sep)`: always at least one part, empty parts kept. */
  function Split(s: string, sep: char): (parts: seq<string>)
    ensures |parts| >= 1
  {
    if s == [] then [""]
    else
      var rest := Split(s[1..], sep);
      if s[0] == sep then [""] + rest
      else [[s[0]] + rest[0]] + rest[1..]
  }

  /** Splitting a text with no separator in it gives the text back whole. */
  lemma {:induction false} SplitWhole(a: string, sep: char)
    requires sep !in a
    ensures Split(a, sep) == [a]
  {
    if a != [] {
      SplitWhole(a[1..], sep);
      assert [a[0]] + a[1..] == a;
    }
  }

  /** The first part of a + [sep] + b is a, when a holds no separator. */
  lemma {:induction false} SplitAfter(a: string, sep: char, b: string)
    requires sep !in a
    ensures Split(a + [sep] + b, sep) == [a] + Split(b, sep)
  {
    if a != [] {
      assert (a + [sep] + b)[1..] == a[1..] + [sep] + b;
      SplitAfter(a[1..], sep, b);
      assert [a[0]] + a[1..] == a;
    } else {
      assert a + [sep] + b == [sep] + b;
    }
  }

  /** Splitting undoes joining, when no part holds the separator. */
  lemma {:induction false} SplitJoin(parts: seq<string>, sep: char)
    requires |parts| >= 1
    requires forall i :: 0 <= i < |parts| ==> sep !in parts[i]
    ensures Split(Join(parts, sep), sep) == parts
  {
    if |parts| == 1 {
      SplitWhole(parts[0], sep);
    } else {
      SplitJoin(parts[1..], sep);
      SplitAfter(parts[0], sep, Join(parts[1..], sep));
      assert [parts[0]] + parts[1..] == parts;
    }
  }

  /** The texts of the first eleven rounded parameters. */
  function Fields(m: seq<int>): (fields: seq<string>)
    requires |m| >= KeyedParams
    ensures |fields| == KeyedParams
    ensures forall i :: 0 <= i < KeyedParams ==> fields[i] == FormatThousandths(m[i])
  {
    seq(KeyedParams, i requires 0 <= i < KeyedParams => FormatThousandths(m[i]))
  }

  /** The directory name of a candidate whose rounded parameters are m. */
  function Key(m: seq<int>): string
    requires |m| >= KeyedParams
  {
    Prefix + Join(Fields(m), Separator)
  }

  /** Reads every text of a list as a value, or fails. */
  function ParseAll(fields: seq<string>): (r: Option<seq<int>>)
    ensures r.Some? ==> |r.value| == |fields|
  {
    if fields == [] then Some([])
    else match (ParseThousandths(fields[0]), ParseAll(fields[1..]))
      case (Some(v), Some(vs)) => Some([v] + vs)
      case _ => None
  }

  /** Reads a directory name back into the eleven rounded parameters it records. */
  function ParseKey(key: string): Option<seq<int>>
  {
    if |key| < |Prefix| || key[..|Prefix|] != Prefix then None
    else
      var fields := Split(key[|Prefix|..], Separator);
      if |fields| != KeyedParams then None else ParseAll(fields)
  }

  lemma {:induction false} ParseAllFormatted(m: seq<int>)
    ensures ParseAll(seq(|m|, i requires 0 <= i < |m| => FormatThousandths(m[i]))) == Some(m)
  {
    var fields := seq(|m|, i requires 0 <= i < |m| => FormatThousandths(m[i]));
    if m != [] {
      var tail := m[1..];
      var rest := seq(|tail|, i requires 0 <= i < |tail| => FormatThousandths(tail[i]));
      assert fields[1..] == rest;
      FormatRoundTrip(m[0]);
      ParseAllFormatted(tail);
      assert ParseAll(fields) == Some([m[0]] + tail);
      assert [m[0]] + tail == m;
    }
  }

  /** A directory name reads back as exactly the parameters it was made from. */
  lemma KeyRoundTrip(m: seq<int>)
    requires |m| >= KeyedParams
    ensures ParseKey(Key(m)) == Some(m[..KeyedParams])
  {
    var fields := Fields(m);
    SplitJoin(fields, Separator);
    var key := Key(m);
    assert key[..|Prefix|] == Prefix;
    assert key[|Prefix|..] == Join(fields, Separator);
    assert fields == seq(|m[..KeyedParams]|, i requires 0 <= i < |m[..KeyedParams]| => FormatThousandths(m[..KeyedParams][i]));
    ParseAllFormatted(m[..KeyedParams]);
  }

  /**
    Two candidates share a directory exactly when their first eleven rounded
    parameters agree; in particular candidates that differ only in the
    coupler spacing share one.
  */
  lemma KeyCollisions(m1: seq<int>, m2: seq<int>)
    requires |m1| >= KeyedParams && |m2| >= KeyedParams
    ensures Key(m1) == Key(m2) <==> m1[..KeyedParams] == m2[..KeyedParams]
  {
    if Key(m1) == Key(m2) {
      KeyRoundTrip(m1);
      KeyRoundTrip(m2);
    }
    if m1[..KeyedParams] == m2[..KeyedParams] {
      forall i | 0 <= i < KeyedParams ensures Fields(m1)[i] == Fields(m2)[i] {
        assert m1[i] == m1[..KeyedParams][i];
        assert m2[i] == m2[..KeyedParams][i];
      }
      assert Fields(m1) == Fields(m2);
    }
  }
}
