/**
 * The parts of `java.lang.String` and `java.lang.Integer` that the request
 * pipeline relies on, on strings as sequences of UTF-16 code units (`char`).
 */
module JavaText {

  /** `byte`, as the unsigned value of one octet. */
  newtype byte = b: int | 0 <= b < 256

  /** `s.startsWith(prefix)` */
  predicate StartsWith(s: string, prefix: string)
  {
    |prefix| <= |s| && s[..|prefix|] == prefix
  }

  /** `s.indexOf(c, from)`: the first index at or after `from` that holds `c`, or -1. */
  function IndexOf(s: string, c: char, from: nat): (r: int)
    ensures r == -1 || (from <= r < |s| && s[r] == c)
    ensures r == -1 <==> forall i :: from <= i < |s| ==> s[i] != c
    ensures forall i :: from <= i < r ==> s[i] != c
    decreases |s| - from
  {
    if from >= |s| then -1
    else if s[from] == c then from
    else IndexOf(s, c, from + 1)
  }

  /** An index at or after `from` that holds `c`, with none before it, is what `IndexOf` finds. */
  lemma IndexOfFirst(s: string, c: char, from: nat, r: nat)
    requires from <= r < |s| && s[r] == c
    requires forall i :: from <= i < r ==> s[i] != c
    ensures IndexOf(s, c, from) == r
  {
  }

  /** `s.lastIndexOf(c)`: the last index that holds `c`, or -1. */
  function LastIndexOf(s: string, c: char): (r: int)
    ensures -1 <= r < |s|
    ensures r == -1 <==> c !in s
    ensures 0 <= r ==> s[r] == c
    ensures forall i :: r < i < |s| ==> s[i] != c
  {
    if s == [] then -1
    else if s[|s| - 1] == c then |s| - 1
    else LastIndexOf(s[..|s| - 1], c)
  }

  /** `s.contains(t)`: `t` occurs in `s` as a contiguous block. */
  predicate Contains(s: string, t: string)
  {
    exists i :: 0 <= i <= |s| - |t| && OccursAt(s, t, i)
  }

  /** `t` stands in `s` starting at index `i`. */
  predicate OccursAt(s: string, t: string, i: nat)
    requires i + |t| <= |s|
  {
    s[i..i + |t|] == t
  }

  /** A string that contains `t + u` also contains `t`. */
  lemma ContainsPrefixOfOccurrence(s: string, t: string, u: string)
    requires Contains(s, t + u)
    ensures Contains(s, t)
  {
    var i :| 0 <= i <= |s| - |t + u| && OccursAt(s, t + u, i);
    assert s[i..i + |t|] == (t + u)[..|t|] == t;
    assert OccursAt(s, t, i);
  }

  /** Case mapping of one character; only the ASCII letters `A`..`Z` change. */
  function LowerChar(c: char): char
  {
    if 'A' <= c <= 'Z' then (c as int + 32) as char else c
  }

  /** `s.toLowerCase()`, restricted to ASCII letters. */
  function ToLower(s: string): (r: string)
    ensures |r| == |s|
    ensures forall i :: 0 <= i < |s| ==> r[i] == LowerChar(s[i])
  {
    seq(|s|, i requires 0 <= i < |s| => LowerChar(s[i]))
  }

  /** Every piece of `s` between occurrences of `sep`, empty pieces included. */
  function SplitAll(s: string, sep: char): (parts: seq<string>)
    ensures |parts| >= 1
    ensures forall k :: 0 <= k < |parts| ==> sep !in parts[k]
    decreases |s|
  {
    var i := IndexOf(s, sep, 0);
    if i == -1 then [s] else [s[..i]] + SplitAll(s[i + 1..], sep)
  }

  /** The pieces glued back together with `sep` between neighbours. */
  function Join(parts: seq<string>, sep: char): string
  {
    if parts == [] then ""
    else if |parts| == 1 then parts[0]
    else parts[0] + [sep] + Join(parts[1..], sep)
  }

  /** Splitting at every separator loses nothing: joining gives the string back. */
  lemma {:induction false} JoinSplitAll(s: string, sep: char)
    ensures Join(SplitAll(s, sep), sep) == s
    decreases |s|
  {
    var i := IndexOf(s, sep, 0);
    if i != -1 {
      var rest := SplitAll(s[i + 1..], sep);
      JoinSplitAll(s[i + 1..], sep);
      var parts := [s[..i]] + rest;
      assert SplitAll(s, sep) == parts;
      assert parts[1..] == rest;
      assert Join(parts, sep) == s[..i] + [sep] + Join(rest, sep);
      assert s == s[..i] + [sep] + s[i + 1..];
    }
  }

  /** And in the other direction: separator-free pieces come back from a split. */
  lemma {:induction false} SplitAllJoin(parts: seq<string>, sep: char)
    requires |parts| >= 1
    requires forall k :: 0 <= k < |parts| ==> sep !in parts[k]
    ensures SplitAll(Join(parts, sep), sep) == parts
  {
    var s := Join(parts, sep);
    if |parts| == 1 {
      assert IndexOf(s, sep, 0) == -1;
    } else {
      var rest := Join(parts[1..], sep);
      assert s == parts[0] + [sep] + rest;
      assert s[|parts[0]|] == sep;
      assert IndexOf(s, sep, 0) == |parts[0]|;
      assert s[..|parts[0]|] == parts[0];
      assert s[|parts[0]| + 1..] == rest;
      SplitAllJoin(parts[1..], sep);
    }
  }

  /** `parts` with its trailing empty strings removed. */
  function DropTrailingEmpty(parts: seq<string>): (r: seq<string>)
    ensures |r| <= |parts| && r == parts[..|r|]
    ensures forall k :: |r| <= k < |parts| ==> parts[k] == ""
    ensures r == [] || r[|r| - 1] != ""
  {
    if parts == [] then []
    else if parts[|parts| - 1] == "" then DropTrailingEmpty(parts[..|parts| - 1])
    else parts
  }

  /**
   * `s.split(String.valueOf(sep))` with limit 0: a string without the
   * separator comes back whole (so "" gives [""]); otherwise every piece,
   * less the trailing empty ones.
   */
  function Split(s: string, sep: char): seq<string>
  {
    if sep !in s then [s] else DropTrailingEmpty(SplitAll(s, sep))
  }

  /**
   * What `Split` keeps of the full list of pieces: a prefix, everything after
   * it empty, and no empty piece at its end unless the input was "".
   */
  lemma SplitIsTrimmedSplitAll(s: string, sep: char)
    ensures var all, r := SplitAll(s, sep), Split(s, sep);
      && |r| <= |all| && r == all[..|r|]
      && (forall k :: |r| <= k < |all| ==> all[k] == "")
      && (forall k :: 0 <= k < |r| ==> sep !in r[k])
      && (s == "" <==> r == [""])
      && (s != "" ==> r == [] || r[|r| - 1] != "")
  {
    if sep !in s {
      assert IndexOf(s, sep, 0) == -1;
    } else {
      assert Split(s, sep) == DropTrailingEmpty(SplitAll(s, sep));
    }
  }

  /** A separator appended to a string adds one empty piece at the end. */
  lemma {:induction false} SplitAllAppendSeparator(s: string, sep: char)
    ensures SplitAll(s + [sep], sep) == SplitAll(s, sep) + [""]
    decreases |s|
  {
    var t := s + [sep];
    var i := IndexOf(s, sep, 0);
    if i == -1 {
      assert forall k :: 0 <= k < |s| ==> t[k] == s[k];
      IndexOfFirst(t, sep, 0, |s|);
      assert t[..|s|] == s;
      assert t[|s| + 1..] == "";
      assert SplitAll("", sep) == [""];
      assert SplitAll(t, sep) == [s] + SplitAll("", sep);
    } else {
      assert forall k :: 0 <= k < |s| ==> t[k] == s[k];
      IndexOfFirst(t, sep, 0, i);
      assert t[..i] == s[..i];
      assert t[i + 1..] == s[i + 1..] + [sep];
      SplitAllAppendSeparator(s[i + 1..], sep);
      assert SplitAll(t, sep) == [s[..i]] + SplitAll(s[i + 1..] + [sep], sep);
      assert SplitAll(s, sep) == [s[..i]] + SplitAll(s[i + 1..], sep);
    }
  }

  /** The first piece ends at the first separator. */
  lemma SplitAllFirst(a: string, sep: char, b: string)
    requires sep !in a
    ensures SplitAll(a + [sep] + b, sep) == [a] + SplitAll(b, sep)
  {
    var t := a + [sep] + b;
    assert forall k :: 0 <= k < |a| ==> t[k] == a[k];
    IndexOfFirst(t, sep, 0, |a|);
    assert t[..|a|] == a;
    assert t[|a| + 1..] == b;
  }

  /** Three separator-free pieces, the last non-empty, split back into those three. */
  lemma SplitThree(a: string, b: string, c: string, sep: char)
    requires sep !in a && sep !in b && sep !in c && c != ""
    ensures Split(a + [sep] + b + [sep] + c, sep) == [a, b, c]
  {
    var tail := b + [sep] + c;
    var s := a + [sep] + tail;
    assert a + [sep] + b + [sep] + c == s;
    assert SplitAll(c, sep) == [c] by {
      assert IndexOf(c, sep, 0) == -1;
    }
    SplitAllFirst(b, sep, c);
    assert SplitAll(tail, sep) == [b, c];
    SplitAllFirst(a, sep, tail);
    var parts := SplitAll(s, sep);
    assert parts == [a, b, c];
    assert sep in s by {
      assert s[|a|] == sep;
    }
    assert DropTrailingEmpty(parts) == parts by {
      assert parts[|parts| - 1] == c;
    }
  }

  /** A trailing separator never adds a token. */
  lemma TrailingSeparatorIgnored(s: string, sep: char)
    requires s != ""
    ensures Split(s + [sep], sep) == Split(s, sep)
  {
    var t := s + [sep];
    assert t[|s|] == sep;
    SplitAllAppendSeparator(s, sep);
    var all := SplitAll(s, sep);
    assert DropTrailingEmpty(all + [""]) == DropTrailingEmpty(all) by {
      assert (all + [""])[..|all|] == all;
    }
    if sep !in s {
      assert IndexOf(s, sep, 0) == -1;
      assert all == [s];
    }
  }

  /** A non-empty string of separators alone has no tokens at all. */
  lemma {:induction false} OnlySeparatorsNoTokens(s: string, sep: char)
    requires s != "" && forall i :: 0 <= i < |s| ==> s[i] == sep
    ensures Split(s, sep) == []
    decreases |s|
  {
    var t := s[..|s| - 1];
    assert s == t + [sep];
    if t == "" {
      SplitAllAppendSeparator("", sep);
      assert IndexOf("", sep, 0) == -1;
      assert s[0] == sep;
      assert SplitAll(s, sep) == ["", ""];
      assert DropTrailingEmpty(["", ""]) == [] by {
        assert ["", ""][..1] == [""];
        assert [""][..0] == [];
      }
    } else {
      OnlySeparatorsNoTokens(t, sep);
      TrailingSeparatorIgnored(t, sep);
    }
  }

  /** A decimal digit as a character. */
  function DigitChar(d: nat): char
    requires d < 10
  {
    ('0' as int + d) as char
  }

  predicate IsDigit(c: char)
  {
    '0' <= c <= '9'
  }

  /** The value of a digit character. */
  function DigitValue(c: char): (d: nat)
    requires IsDigit(c)
    ensures d < 10 && DigitChar(d) == c
  {
    c as int - '0' as int
  }

  /** `Integer.toString(n)` for a non-negative `n`. */
  function Decimal(n: nat): (r: string)
    ensures |r| >= 1 && forall i :: 0 <= i < |r| ==> IsDigit(r[i])
    ensures |r| > 1 ==> r[0] != '0'
  {
    if n < 10 then [DigitChar(n)] else Decimal(n / 10) + [DigitChar(n % 10)]
  }

  /** Reads a string of digits as a number (`Integer.parseInt` on digits only). */
  function ParseDecimal(s: string): nat
    requires forall i :: 0 <= i < |s| ==> IsDigit(s[i])
  {
    if s == [] then 0
    else 10 * ParseDecimal(s[..|s| - 1]) + DigitValue(s[|s| - 1])
  }

  /** A Content-Length written with `Decimal` reads back as the same number. */
  lemma {:induction false} DecimalRoundTrip(n: nat)
    ensures ParseDecimal(Decimal(n)) == n
  {
    if n >= 10 {
      DecimalRoundTrip(n / 10);
      var d := Decimal(n);
      assert d[..|d| - 1] == Decimal(n / 10);
    }
  }

  /** An ASCII string as the bytes `getBytes(UTF_8)` produces for it. */
  function AsciiBytes(s: string): (b: seq<byte>)
    requires forall i :: 0 <= i < |s| ==> s[i] < 128 as char
    ensures |b| == |s|
    ensures forall i :: 0 <= i < |s| ==> b[i] as int == s[i] as int
  {
    seq(|s|, i requires 0 <= i < |s| => s[i] as int as byte)
  }
}
