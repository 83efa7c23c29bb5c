/**
  The few operations of .NET's `System.String` that the benchmark relies on,
  stated over `seq<char>`: `char.IsWhiteSpace`, `string.IsNullOrWhiteSpace`,
  `Trim`, `Split` on one separator character, and ordinal case-insensitive
  equality.
 */
module DotNetText {

  /** `char.IsWhiteSpace`: the characters of Unicode's White_Space property. */
  predicate IsWhiteSpace(c: char)
  {
    || ('\U{9}' <= c <= '\U{D}')
    || c == ' ' || c == '\U{85}' || c == '\U{A0}' || c == '\U{1680}'
    || ('\U{2000}' <= c <= '\U{200A}')
    || c == '\U{2028}' || c == '\U{2029}' || c == '\U{202F}' || c == '\U{205F}' || c == '\U{3000}'
  }

  /** `string.IsNullOrWhiteSpace` on a non-null string: every character is white space. */
  predicate IsBlank(s: string)
  {
    forall i :: 0 <= i < |s| ==> IsWhiteSpace(s[i])
  }

  /** No white space at either end. */
  predicate IsTrimmed(s: string)
  {
    s == [] || (!IsWhiteSpace(s[0]) && !IsWhiteSpace(s[|s| - 1]))
  }

  /** Removes the leading white space. */
  function TrimStart(s: string): string
  {
    if |s| > 0 && IsWhiteSpace(s[0]) then TrimStart(s[1..]) else s
  }

  /** Removes the trailing white space. */
  function TrimEnd(s: string): string
  {
    if |s| > 0 && IsWhiteSpace(s[|s| - 1]) then TrimEnd(s[..|s| - 1]) else s
  }

  /** `string.Trim()`: removes the white space at both ends. */
  function Trim(s: string): string
  {
    TrimEnd(TrimStart(s))
  }

  /** `TrimStart` keeps a suffix of its input and cuts off only white space. */
  lemma {:induction false} TrimStartSpec(s: string)
    ensures var r := TrimStart(s);
      && |r| <= |s| && r == s[|s| - |r|..]
      && IsBlank(s[..|s| - |r|])
      && (r == [] || !IsWhiteSpace(r[0]))
  {
    if |s| > 0 && IsWhiteSpace(s[0]) {
      TrimStartSpec(s[1..]);
      var r := TrimStart(s[1..]);
      assert s[..|s| - |r|] == [s[0]] + s[1..][..|s| - 1 - |r|];
    }
  }

  /** `TrimEnd` keeps a prefix of its input and cuts off only white space. */
  lemma {:induction false} TrimEndSpec(s: string)
    ensures var r := TrimEnd(s);
      && |r| <= |s| && r == s[..|r|]
      && IsBlank(s[|r|..])
      && (r == [] || !IsWhiteSpace(r[|r| - 1]))
  {
    if |s| > 0 && IsWhiteSpace(s[|s| - 1]) {
      var init := s[..|s| - 1];
      TrimEndSpec(init);
      var r := TrimEnd(init);
      assert s[|r|..] == init[|r|..] + [s[|s| - 1]];
    }
  }

  /** What `Trim` leaves is a contiguous piece of its input, with only white space cut off around it. */
  lemma TrimIsSlice(s: string) returns (i: nat, j: nat)
    ensures i <= j <= |s| && Trim(s) == s[i..j]
    ensures IsBlank(s[..i]) && IsBlank(s[j..])
  {
    var t := TrimStart(s);
    var r := TrimEnd(t);
    TrimStartSpec(s);
    TrimEndSpec(t);
    i := |s| - |t|;
    j := i + |r|;
    assert IsBlank(s[..i]);
    assert t == s[i..];
    assert r == t[..|r|] == s[i..j];
    assert t[|r|..] == s[j..];
    assert IsBlank(s[j..]);
  }

  lemma TrimIsTrimmed(s: string)
    ensures IsTrimmed(Trim(s))
  {
    var t := TrimStart(s);
    var r := TrimEnd(t);
    TrimStartSpec(s);
    TrimEndSpec(t);
    if r != [] {
      assert r[0] == t[0];
    }
  }

  /** Trimming a string without white space at its ends changes nothing; so trimming is idempotent. */
  lemma TrimOfTrimmed(s: string)
    requires IsTrimmed(s)
    ensures Trim(s) == s
  {
  }

  lemma TrimIdempotent(s: string)
    ensures Trim(Trim(s)) == Trim(s)
  {
    TrimIsTrimmed(s);
    TrimOfTrimmed(Trim(s));
  }

  /** `Trim` leaves nothing exactly when the input is white space only. */
  lemma TrimEmptyIffBlank(s: string)
    ensures Trim(s) == [] <==> IsBlank(s)
  {
    var t := TrimStart(s);
    TrimStartSpec(s);
    TrimEndSpec(t);
    if Trim(s) == [] {
      assert IsBlank(t[..0]);
      assert s == s[..|s| - |t|] + t;
    }
  }

  /** Testing `IsNullOrWhiteSpace` after `Trim` is the same as testing it before. */
  lemma BlankAfterTrim(s: string)
    ensures IsBlank(Trim(s)) <==> IsBlank(s)
  {
    TrimEmptyIffBlank(s);
    TrimIsTrimmed(s);
  }

  /** For a string that is already trimmed, `IsNullOrWhiteSpace` is the same as being empty. */
  lemma BlankTrimmedIsEmpty(s: string)
    requires IsTrimmed(s)
    ensures IsBlank(s) <==> s == []
  {
  }

  /** `String.Split(separator)` with one separator and no options: every piece, empty ones included. */
  function Split(s: string, sep: char): (parts: seq<string>)
    ensures |parts| >= 1
    ensures forall k :: 0 <= k < |parts| ==> sep !in parts[k]
    ensures |parts| == 1 <==> sep !in s
  {
    if s == [] then [[]]
    else
      var rest := Split(s[1..], sep);
      if s[0] == sep then [[]] + rest
      else [[s[0]] + rest[0]] + rest[1..]
  }

  /** `String.Join(separator, parts)`: the inverse of `Split`. */
  function Join(parts: seq<string>, sep: char): string
  {
    if |parts| == 0 then []
    else if |parts| == 1 then parts[0]
    else parts[0] + [sep] + Join(parts[1..], sep)
  }

  /** Joining the pieces again gives back the input: `Split` loses nothing but the separators. */
  lemma {:induction false} JoinSplit(s: string, sep: char)
    ensures Join(Split(s, sep), sep) == s
  {
    if s != [] {
      var rest := Split(s[1..], sep);
      JoinSplit(s[1..], sep);
      if s[0] == sep {
        assert Split(s, sep)[1..] == rest;
      } else {
        var parts := Split(s, sep);
        assert parts[1..] == rest[1..];
        if |rest| > 1 {
          assert Join(rest, sep) == rest[0] + [sep] + Join(rest[1..], sep);
        }
      }
    }
  }

  /** Splitting a join of separator-free pieces gives back the pieces. */
  lemma {:induction false} SplitJoin(parts: seq<string>, sep: char)
    requires |parts| >= 1
    requires forall k :: 0 <= k < |parts| ==> sep !in parts[k]
    ensures Split(Join(parts, sep), sep) == parts
  {
    if |parts| == 1 {
      SplitWithoutSeparator(parts[0], sep);
    } else {
      SplitJoin(parts[1..], sep);
      SplitAfterPiece(parts[0], Join(parts[1..], sep), sep);
      assert [parts[0]] + parts[1..] == parts;
    }
  }

  lemma {:induction false} SplitWithoutSeparator(s: string, sep: char)
    requires sep !in s
    ensures Split(s, sep) == [s]
  {
    if s != [] {
      SplitWithoutSeparator(s[1..], sep);
      assert [s[0]] + s[1..] == s;
    }
  }

  /** A separator splits a string into the pieces of the part before it followed by those of the part after it. */
  lemma {:induction false} SplitAtSeparator(head: string, tail: string, sep: char)
    ensures Split(head + [sep] + tail, sep) == Split(head, sep) + Split(tail, sep)
  {
    var s := head + [sep] + tail;
    if head == [] {
      assert s == [sep] + tail;
    } else {
      assert s == [head[0]] + (head[1..] + [sep] + tail);
      SplitAtSeparator(head[1..], tail, sep);
      SplitStep(head[0], head[1..] + [sep] + tail, Split(head[1..], sep), Split(tail, sep), sep);
      SplitStep(head[0], head[1..], Split(head[1..], sep), [], sep);
      assert [head[0]] + head[1..] == head;
    }
  }

  /** One step of `Split` on a string whose remainder splits into `front + back`, `front` not empty. */
  lemma SplitStep(c: char, rest: string, front: seq<string>, back: seq<string>, sep: char)
    requires |front| >= 1 && Split(rest, sep) == front + back
    ensures Split([c] + rest, sep) ==
      (if c == sep then [[]] + front else [[c] + front[0]] + front[1..]) + back
  {
    var s := [c] + rest;
    assert s[0] == c && s[1..] == rest;
    if c != sep {
      assert (front + back)[1..] == front[1..] + back;
    }
  }

  lemma {:induction false} SplitAfterPiece(piece: string, tail: string, sep: char)
    requires sep !in piece
    ensures Split(piece + [sep] + tail, sep) == [piece] + Split(tail, sep)
  {
    var s := piece + [sep] + tail;
    if piece == [] {
      assert s[1..] == tail;
    } else {
      assert s[1..] == piece[1..] + [sep] + tail;
      SplitAfterPiece(piece[1..], tail, sep);
      assert [piece[0]] + piece[1..] == piece;
    }
  }

  /**
    The uppercase mapping `OrdinalIgnoreCase` applies to one UTF-16 code unit,
    for the Basic Latin and Latin-1 letters (the range the benchmark's German
    item banks use).
   */
  function ToUpperOrdinal(c: char): char
  {
    if 'a' <= c <= 'z' then (c as int - 32) as char
    else if '\U{E0}' <= c <= '\U{FE}' && c != '\U{F7}' then (c as int - 32) as char
    else if c == '\U{FF}' then '\U{178}'
    else if c == '\U{B5}' then '\U{39C}'
    else c
  }

  /** `string.Equals(a, b, StringComparison.OrdinalIgnoreCase)`. */
  predicate EqualsOrdinalIgnoreCase(a: string, b: string)
  {
    |a| == |b| && forall i :: 0 <= i < |a| ==> ToUpperOrdinal(a[i]) == ToUpperOrdinal(b[i])
  }

  /** Ordinal case-insensitive equality is an equivalence. */
  lemma IgnoreCaseIsEquivalence(a: string, b: string, c: string)
    ensures EqualsOrdinalIgnoreCase(a, a)
    ensures EqualsOrdinalIgnoreCase(a, b) ==> EqualsOrdinalIgnoreCase(b, a)
    ensures EqualsOrdinalIgnoreCase(a, b) && EqualsOrdinalIgnoreCase(b, c) ==> EqualsOrdinalIgnoreCase(a, c)
  {
  }

  /**
    The comparison a forced-choice answer goes through: the chosen emotion's
    name matches the key's name in any case, umlauts included, but a different
    name, an empty answer or trailing punctuation do not.
   */
  lemma IgnoreCaseOfEmotionNames()
    ensures EqualsOrdinalIgnoreCase("W\U{FC}tend", "w\U{FC}tend")
    ensures EqualsOrdinalIgnoreCase("angst", "Angst") && EqualsOrdinalIgnoreCase("\U{DC}berrascht", "\U{FC}berrascht")
    ensures !EqualsOrdinalIgnoreCase("Angst.", "Angst") && !EqualsOrdinalIgnoreCase("Wut", "Angst")
    ensures !EqualsOrdinalIgnoreCase("", "Angst")
  {
    assert ToUpperOrdinal("w"[0]) == 'W' && ToUpperOrdinal("\U{FC}"[0]) == '\U{DC}';
    assert ToUpperOrdinal("a"[0]) == 'A';
    assert ToUpperOrdinal("Wut"[0]) != ToUpperOrdinal("Angst"[0]);
  }
}
