/** The part of .NET's string API that the core calls, over strings as
    sequences of characters. */
module Strings {
  import opened Nullable

  /** `char.IsWhiteSpace`: the Unicode space, line and paragraph separators
      together with U+0009..U+000D and U+0085. */
  predicate IsWhiteSpace(c: char)
  {
    || ('\U{9}' <= c <= '\U{D}')
    || c == ' ' || c == '\U{85}' || c == '\U{A0}' || c == '\U{1680}'
    || ('\U{2000}' <= c <= '\U{200A}')
    || c == '\U{2028}' || c == '\U{2029}' || c == '\U{202F}' || c == '\U{205F}' || c == '\U{3000}'
  }

  /** `string.IsNullOrEmpty`. */
  predicate IsNullOrEmpty(s: Option<string>)
  {
    s == None || s == Some("")
  }

  /** `string.IsNullOrWhiteSpace`: null, empty, or made of white space only. */
  predicate IsNullOrWhiteSpace(s: Option<string>)
  {
    s.None? || forall i :: 0 <= i < |s.value| ==> IsWhiteSpace(s.value[i])
  }

  /** `s.Split(d)`: the pieces of `s` between occurrences of `d`, in order. There
      is always at least one piece, and no piece holds `d` or any character
      that `s` does not hold. */
  function Split(s: string, d: char): (parts: seq<string>)
    ensures |parts| >= 1
    ensures forall i :: 0 <= i < |parts| ==> d !in parts[i]
    ensures forall c :: c !in s ==> forall i :: 0 <= i < |parts| ==> c !in parts[i]
    decreases |s|
  {
    if s == [] then [""]
    else
      assert forall c :: c in s[1..] ==> c in s;
      var rest := Split(s[1..], d);
      if s[0] == d then [""] + rest
      else [[s[0]] + rest[0]] + rest[1..]
  }

  /** `string.Join(sep, parts)`: the pieces in order with the separator
      between them; every character of every piece appears in the result. */
  function Join(parts: seq<string>, sep: char): (s: string)
    ensures forall i, c :: 0 <= i < |parts| && c in parts[i] ==> c in s
    decreases |parts|
  {
    if |parts| == 0 then ""
    else if |parts| == 1 then parts[0]
    else
      var rest := Join(parts[1..], sep);
      assert forall i :: 1 <= i < |parts| ==> parts[i] == parts[1..][i - 1];
      parts[0] + [sep] + rest
  }

  /** A character that is neither the separator nor in any piece is not in
      their join. */
  lemma {:induction false} JoinWithout(parts: seq<string>, sep: char, c: char)
    requires c != sep
    requires forall i :: 0 <= i < |parts| ==> c !in parts[i]
    ensures c !in Join(parts, sep)
    decreases |parts|
  {
    if |parts| > 1 {
      JoinWithout(parts[1..], sep, c);
    }
  }

  /** What `StringSplitOptions.RemoveEmptyEntries` keeps: the non-empty
      pieces, in their order. */
  function RemoveEmptyEntries(parts: seq<string>): (r: seq<string>)
    ensures |r| <= |parts|
    ensures forall i :: 0 <= i < |r| ==> r[i] != "" && r[i] in parts
    ensures forall j :: 0 <= j < |parts| && parts[j] != "" ==> parts[j] in r
    decreases |parts|
  {
    if parts == [] then []
    else
      var rest := RemoveEmptyEntries(parts[1..]);
      assert forall j :: 1 <= j < |parts| ==> parts[j] == parts[1..][j - 1];
      (if parts[0] == "" then [] else [parts[0]]) + rest
  }

  /** Removing empty entries works piece by piece: on a concatenation it
      gives the kept pieces of the first part followed by those of the
      second, so the kept pieces stay in their order. */
  lemma {:induction false} RemoveEmptyEntriesAppend(a: seq<string>, b: seq<string>)
    ensures RemoveEmptyEntries(a + b) == RemoveEmptyEntries(a) + RemoveEmptyEntries(b)
    decreases |a|
  {
    if a != [] {
      assert (a + b)[1..] == a[1..] + b;
      RemoveEmptyEntriesAppend(a[1..], b);
    } else {
      assert a + b == b;
    }
  }

  /** `s.Split(d, StringSplitOptions.RemoveEmptyEntries)`: the non-empty
      pieces of `s.Split(d)`, every one of them. */
  function SplitRemoveEmpty(s: string, d: char): (parts: seq<string>)
    ensures forall i :: 0 <= i < |parts| ==> parts[i] != "" && d !in parts[i]
    ensures forall c :: c !in s ==> forall i :: 0 <= i < |parts| ==> c !in parts[i]
    ensures forall j :: 0 <= j < |Split(s, d)| && Split(s, d)[j] != "" ==> Split(s, d)[j] in parts
  {
    RemoveEmptyEntries(Split(s, d))
  }

  /** A text without the delimiter gives itself, or no entry when it is
      empty. */
  lemma SplitRemoveEmptyWithoutDelimiter(s: string, d: char)
    requires d !in s
    ensures SplitRemoveEmpty(s, d) == if s == "" then [] else [s]
  {
    SplitWithoutDelimiter(s, d);
  }

  /** A delimiter occurrence separates the entries before it from those
      after it, in order; with `SplitRemoveEmptyWithoutDelimiter` this fixes
      the result for every text. */
  lemma SplitRemoveEmptyAppend(a: string, b: string, d: char)
    ensures SplitRemoveEmpty(a + [d] + b, d) == SplitRemoveEmpty(a, d) + SplitRemoveEmpty(b, d)
  {
    SplitAppend(a, b, d);
    RemoveEmptyEntriesAppend(Split(a, d), Split(b, d));
  }

  /** `char.ToLowerInvariant` on the ASCII letters A..Z. */
  function ToLowerChar(c: char): char
  {
    if 'A' <= c <= 'Z' then (c as int + 32) as char else c
  }

  /** The upper-case form of an ASCII letter a..z. */
  function ToUpperChar(c: char): char
  {
    if 'a' <= c <= 'z' then (c as int - 32) as char else c
  }

  /** `string.ToLowerInvariant`: every character lower-cased, length kept. */
  function ToLowerInvariant(s: string): (r: string)
    ensures |r| == |s|
    ensures forall i :: 0 <= i < |s| ==> r[i] == ToLowerChar(s[i])
    decreases |s|
  {
    if s == [] then [] else [ToLowerChar(s[0])] + ToLowerInvariant(s[1..])
  }

  predicate IsLowerAsciiWord(t: string)
  {
    forall i :: 0 <= i < |t| ==> 'a' <= t[i] <= 'z'
  }

  /** A character lower-cases to a lower-case ASCII letter exactly when it is
      that letter or its upper-case form. */
  lemma LowerCharMatches(c: char, l: char)
    requires 'a' <= l <= 'z'
    ensures ToLowerChar(c) == l <==> c == l || c == ToUpperChar(l)
  {
  }

  /** Matching after `ToLowerInvariant` against a lower-case word accepts
      exactly the spellings of that word in any mix of upper and lower case. */
  lemma MatchesIgnoringCase(u: string, t: string)
    requires IsLowerAsciiWord(t)
    ensures ToLowerInvariant(u) == t <==>
      |u| == |t| && forall i :: 0 <= i < |u| ==> u[i] == t[i] || u[i] == ToUpperChar(t[i])
  {
    var lower := ToLowerInvariant(u);
    if |u| == |t| {
      forall i | 0 <= i < |u|
        ensures lower[i] == t[i] <==> u[i] == t[i] || u[i] == ToUpperChar(t[i])
      {
        LowerCharMatches(u[i], t[i]);
      }
    }
  }

  /** Joining the pieces of a split gives back the string. */
  lemma {:induction false} JoinSplit(s: string, d: char)
    ensures Join(Split(s, d), d) == s
    decreases |s|
  {
    if s != [] {
      JoinSplit(s[1..], d);
      var rest := Split(s[1..], d);
      if s[0] == d {
        assert ([""] + rest)[1..] == rest;
        assert s == [d] + s[1..];
      } else {
        var head := [s[0]] + rest[0];
        assert ([head] + rest[1..])[1..] == rest[1..];
        assert s == [s[0]] + s[1..];
      }
    }
  }

  /** A string without the delimiter splits into itself. */
  lemma {:induction false} SplitWithoutDelimiter(s: string, d: char)
    requires d !in s
    ensures Split(s, d) == [s]
    decreases |s|
  {
    if s != [] {
      SplitWithoutDelimiter(s[1..], d);
      assert s == [s[0]] + s[1..];
    }
  }

  /** Splitting distributes over a delimiter occurrence. */
  lemma {:induction false} SplitAppend(a: string, b: string, d: char)
    ensures Split(a + [d] + b, d) == Split(a, d) + Split(b, d)
    decreases |a|
  {
    var s := a + [d] + b;
    if a == [] {
      assert s[1..] == b;
    } else {
      assert s[1..] == a[1..] + [d] + b;
      SplitAppend(a[1..], b, d);
    }
  }

  /** Splitting a join of delimiter-free pieces gives back the pieces. */
  lemma {:induction false} SplitJoin(parts: seq<string>, d: char)
    requires |parts| >= 1
    requires forall i :: 0 <= i < |parts| ==> d !in parts[i]
    ensures Split(Join(parts, d), d) == parts
    decreases |parts|
  {
    SplitWithoutDelimiter(parts[0], d);
    if |parts| > 1 {
      SplitJoin(parts[1..], d);
      SplitAppend(parts[0], Join(parts[1..], d), d);
      assert parts == [parts[0]] + parts[1..];
    }
  }

  /** Removing empty entries changes nothing when there are none. */
  lemma {:induction false} RemoveEmptyEntriesOfNonEmpty(parts: seq<string>)
    requires forall i :: 0 <= i < |parts| ==> parts[i] != ""
    ensures RemoveEmptyEntries(parts) == parts
    decreases |parts|
  {
    if parts != [] {
      RemoveEmptyEntriesOfNonEmpty(parts[1..]);
      assert parts == [parts[0]] + parts[1..];
    }
  }

  /** `Split(sep, RemoveEmptyEntries)` undoes `Join(sep, …)` for non-empty
      pieces without the separator, including the empty list. */
  lemma SplitRemoveEmptyJoin(parts: seq<string>, d: char)
    requires forall i :: 0 <= i < |parts| ==> parts[i] != "" && d !in parts[i]
    ensures SplitRemoveEmpty(Join(parts, d), d) == parts
  {
    if parts != [] {
      SplitJoin(parts, d);
      RemoveEmptyEntriesOfNonEmpty(parts);
    }
  }

  /** Three delimiter-free fields joined by the delimiter split back into
      those three fields. */
  lemma SplitThree(a: string, b: string, c: string, d: char)
    requires d !in a && d !in b && d !in c
    ensures Split(a + [d] + b + [d] + c, d) == [a, b, c]
  {
    assert a + [d] + b + [d] + c == a + [d] + (b + [d] + c);
    SplitAppend(a, b + [d] + c, d);
    SplitAppend(b, c, d);
    SplitWithoutDelimiter(a, d);
    SplitWithoutDelimiter(b, d);
    SplitWithoutDelimiter(c, d);
  }

  /** A delimiter inside a piece adds a piece: if `s` holds `d`, it splits
      into at least two pieces. */
  lemma SplitAtOccurrence(s: string, d: char)
    requires d in s
    ensures |Split(s, d)| >= 2
  {
  }
}
