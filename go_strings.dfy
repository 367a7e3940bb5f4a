/**
 * The parts of Go's `strings` package that the form engine relies on:
 * `strings.Split` with a one-character separator, `strings.SplitN(s, sep, 2)`
 * and `strings.TrimSpace` (as `strings.TrimFunc` with `unicode.IsSpace`),
 * together with `strings.Join`, which is the
 * partner that `Split` inverts.  Strings are sequences of Unicode scalar
 * values, i.e. already-decoded UTF-8.
 */
module GoStrings {
  import opened Wrappers

  /** Go's `unicode.IsSpace`: the Latin-1 spaces and Unicode's White_Space property. */
  predicate IsSpace(c: char) {
    || c == '\t' || c == '\n' || c == '\U{000B}' || c == '\U{000C}' || c == '\r' || c == ' '
    || c == '\U{0085}' || c == '\U{00A0}' || c == '\U{1680}'
    || ('\U{2000}' <= c <= '\U{200A}')
    || c == '\U{2028}' || c == '\U{2029}' || c == '\U{202F}' || c == '\U{205F}' || c == '\U{3000}'
  }

  /** The end of the run of characters satisfying `f` that starts at `i`; all of `s[..i]` satisfy it already. */
  function LeadEnd(s: string, f: char -> bool, i: nat): (n: nat)
    requires i <= |s|
    requires forall j :: 0 <= j < i ==> f(s[j])
    ensures i <= n <= |s|
    ensures forall j :: 0 <= j < n ==> f(s[j])
    ensures n == |s| || !f(s[n])
    decreases |s| - i
  {
    if i < |s| && f(s[i]) then LeadEnd(s, f, i + 1) else i
  }

  /** The start of the run of characters satisfying `f` that ends the string, not going below `lo`. */
  function TrailStart(s: string, f: char -> bool, lo: nat, e: nat): (n: nat)
    requires lo <= e <= |s|
    requires forall j :: e <= j < |s| ==> f(s[j])
    ensures lo <= n <= e
    ensures forall j :: n <= j < |s| ==> f(s[j])
    ensures n == lo || !f(s[n - 1])
    decreases e
  {
    if e > lo && f(s[e - 1]) then TrailStart(s, f, lo, e - 1) else e
  }

  /** Go's `strings.TrimFunc`: `s` without the characters satisfying `f` at either end. */
  function TrimFunc(s: string, f: char -> bool): string
  {
    var lo := LeadEnd(s, f, 0);
    s[lo..TrailStart(s, f, lo, |s|)]
  }

  /** `r` is what remains of `s` once the `lead` characters in front and those after `r`, all satisfying `f`, go. */
  predicate IsTrimOf(r: string, s: string, lead: nat, f: char -> bool) {
    && lead + |r| <= |s|
    && (forall i :: 0 <= i < |r| ==> r[i] == s[lead + i])
    && (forall i :: 0 <= i < lead ==> f(s[i]))
    && (forall i :: lead + |r| <= i < |s| ==> f(s[i]))
  }

  /**
   * What `TrimFunc` drops satisfies `f`, what it keeps is a contiguous middle
   * part of `s`, and neither end of that part satisfies `f`.
   */
  lemma TrimFuncIsTrim(s: string, f: char -> bool)
    ensures IsTrimOf(TrimFunc(s, f), s, LeadEnd(s, f, 0), f)
    ensures var r := TrimFunc(s, f); r == [] || (!f(r[0]) && !f(r[|r| - 1]))
  {
  }

  /** A string whose ends do not satisfy `f` is its own trim. */
  lemma TrimFuncOfTrimmed(s: string, f: char -> bool)
    requires s == [] || (!f(s[0]) && !f(s[|s| - 1]))
    ensures TrimFunc(s, f) == s
  {
    assert LeadEnd(s, f, 0) == 0;
    assert TrailStart(s, f, 0, |s|) == |s|;
  }

  /** Go's `strings.TrimSpace`: `s` without the white space at either end. */
  function TrimSpace(s: string): string
  {
    TrimFunc(s, IsSpace)
  }

  /** `TrimSpace` drops only white space, from both ends, and leaves none at either end of what it keeps. */
  lemma TrimSpaceTrims(s: string)
    ensures IsTrimOf(TrimSpace(s), s, LeadEnd(s, IsSpace, 0), IsSpace)
    ensures var r := TrimSpace(s); r == [] || (!IsSpace(r[0]) && !IsSpace(r[|r| - 1]))
  {
    TrimFuncIsTrim(s, IsSpace);
  }

  /** Go's `strings.Split(s, string(sep))`: the pieces between the separators, at least one. */
  function Split(s: string, sep: char): (parts: seq<string>)
    ensures |parts| >= 1
  {
    if s == [] then [""]
    else
      var rest := Split(s[1..], sep);
      if s[0] == sep then [""] + rest else [[s[0]] + rest[0]] + rest[1..]
  }

  /** A split has one piece more than the string has separators. */
  lemma {:induction false} SplitCount(s: string, sep: char)
    ensures |Split(s, sep)| == multiset(s)[sep] + 1
  {
    if s != [] {
      SplitCount(s[1..], sep);
      assert s == [s[0]] + s[1..];
    }
  }

  /** No piece of a split holds the separator. */
  lemma {:induction false} SplitPiecesLackSep(s: string, sep: char)
    ensures forall k :: 0 <= k < |Split(s, sep)| ==> sep !in Split(s, sep)[k]
  {
    if s != [] {
      SplitPiecesLackSep(s[1..], sep);
      var rest := Split(s[1..], sep);
      if s[0] != sep {
        assert forall k :: 1 <= k < |Split(s, sep)| ==> Split(s, sep)[k] == rest[k];
        assert sep !in rest[0];
      }
    }
  }

  /** Go's `strings.Join(parts, string(sep))`. */
  function Join(parts: seq<string>, sep: char): string
  {
    if |parts| == 0 then ""
    else if |parts| == 1 then parts[0]
    else parts[0] + [sep] + Join(parts[1..], sep)
  }

  /** Joining the pieces of a split gives back the string. */
  lemma {:induction false} JoinOfSplit(s: string, sep: char)
    ensures Join(Split(s, sep), sep) == s
  {
    if s != [] {
      var rest := Split(s[1..], sep);
      JoinOfSplit(s[1..], sep);
      if s[0] == sep {
        assert ([""] + rest)[1..] == rest;
      } else if |rest| == 1 {
        assert Join(Split(s, sep), sep) == [s[0]] + rest[0];
      } else {
        var parts := [[s[0]] + rest[0]] + rest[1..];
        assert parts[1..] == rest[1..];
        assert Join(rest, sep) == rest[0] + [sep] + Join(rest[1..], sep);
      }
      assert s == [s[0]] + s[1..];
    }
  }

  /** A string without the separator is a single piece. */
  lemma {:induction false} SplitWithoutSep(a: string, sep: char)
    requires sep !in a
    ensures Split(a, sep) == [a]
  {
    if a != [] {
      SplitWithoutSep(a[1..], sep);
      assert a == [a[0]] + a[1..];
    }
  }

  /** Splitting a string that starts with `c`, one step of the definition. */
  lemma SplitCons(c: char, t: string, sep: char)
    ensures Split([c] + t, sep) ==
      if c == sep then [""] + Split(t, sep) else [[c] + Split(t, sep)[0]] + Split(t, sep)[1..]
  {
    assert ([c] + t)[0] == c && ([c] + t)[1..] == t;
  }

  /** Putting `c` in front of the first piece of `ra + rb` puts it in front of the first piece of `ra`. */
  lemma PrefixFirstPiece(c: char, ra: seq<string>, rb: seq<string>)
    requires |ra| >= 1
    ensures [[c] + (ra + rb)[0]] + (ra + rb)[1..] == ([[c] + ra[0]] + ra[1..]) + rb
  {
    assert (ra + rb)[0] == ra[0];
    assert (ra + rb)[1..] == ra[1..] + rb;
  }

  lemma ConsAppend(x: string, ra: seq<string>, rb: seq<string>)
    ensures [x] + (ra + rb) == ([x] + ra) + rb
  {
  }

  /** Splitting at a separator between `a` and `b` splits `a` and `b` separately. */
  lemma {:induction false} SplitAppend(a: string, b: string, sep: char)
    ensures Split(a + [sep] + b, sep) == Split(a, sep) + Split(b, sep)
  {
    if a == [] {
      assert a + [sep] + b == [sep] + b;
      SplitCons(sep, b, sep);
    } else {
      var c, t := a[0], a[1..];
      var ra, rb := Split(t, sep), Split(b, sep);
      assert a == [c] + t;
      assert a + [sep] + b == [c] + (t + [sep] + b);
      SplitAppend(t, b, sep);
      SplitCons(c, t + [sep] + b, sep);
      SplitCons(c, t, sep);
      if c == sep {
        ConsAppend("", ra, rb);
      } else {
        PrefixFirstPiece(c, ra, rb);
      }
    }
  }

  /** The text before the first separator is the first piece. */
  lemma SplitFirstPiece(a: string, b: string, sep: char)
    requires sep !in a
    ensures Split(a + [sep] + b, sep) == [a] + Split(b, sep)
  {
    SplitAppend(a, b, sep);
    SplitWithoutSep(a, sep);
  }

  /** Splitting a join of separator-free pieces gives back the pieces. */
  lemma {:induction false} SplitOfJoin(parts: seq<string>, sep: char)
    requires |parts| >= 1
    requires forall k :: 0 <= k < |parts| ==> sep !in parts[k]
    ensures Split(Join(parts, sep), sep) == parts
  {
    if |parts| == 1 {
      SplitWithoutSep(parts[0], sep);
    } else {
      SplitOfJoin(parts[1..], sep);
      SplitFirstPiece(parts[0], Join(parts[1..], sep), sep);
      assert parts == [parts[0]] + parts[1..];
    }
  }

  /**
   * Go's `strings.SplitN(s, string(sep), 2)` read as "two pieces or not": the text
   * before the first `sep` and everything after it, which may hold more `sep`s.
   */
  function SplitAtFirst(s: string, sep: char): (r: Option<(string, string)>)
    ensures r.None? <==> sep !in s
    ensures r.Some? ==> s == r.value.0 + [sep] + r.value.1 && sep !in r.value.0
  {
    if s == [] then None
    else if s[0] == sep then
      assert s == [] + [sep] + s[1..];
      Some(([], s[1..]))
    else
      match SplitAtFirst(s[1..], sep)
      case None => None
      case Some(kv) =>
        assert s == [s[0]] + s[1..];
        Some(([s[0]] + kv.0, kv.1))
  }

  /** The two pieces are determined: the first holds no separator. */
  lemma {:induction false} SplitAtFirstUnique(k: string, sep: char, v: string)
    requires sep !in k
    ensures SplitAtFirst(k + [sep] + v, sep) == Some((k, v))
  {
    var s := k + [sep] + v;
    if k == [] {
      assert s[1..] == v;
    } else {
      assert s[0] == k[0];
      assert s[1..] == k[1..] + [sep] + v;
      SplitAtFirstUnique(k[1..], sep, v);
      assert k == [k[0]] + k[1..];
    }
  }
}
