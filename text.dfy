/**
  Character classes and string operations the bot relies on, written out for
  JavaScript's semantics: strings are sequences of Unicode scalar values,
  `length` counts UTF-16 code units, `\s` is the ECMAScript white-space class,
  and `split(' ')` splits on every single space.
*/
module Text {

  /** The number of UTF-16 code units one character takes. */
  function Units(c: char): nat
  {
    if c as int >= 0x10000 then 2 else 1
  }

  /** JavaScript's `String.prototype.length`: UTF-16 code units, not characters. */
  function Utf16Length(s: string): (n: nat)
    ensures |s| <= n <= 2 * |s|
    ensures (forall i :: 0 <= i < |s| ==> s[i] as int < 0x10000) ==> n == |s|
  {
    if s == [] then 0 else Utf16Length(s[..|s| - 1]) + Units(s[|s| - 1])
  }

  /** Upper-case letters whose lower-case form is 32 code points further:
      ASCII A-Z and the Latin-1 capitals U+00C0..U+00DE except the sign U+00D7. */
  predicate IsUpperLatin(c: char)
  {
    ('A' <= c <= 'Z') || ('\U{C0}' <= c <= '\U{DE}' && c != '\U{D7}')
  }

  /** `toLowerCase` on one character, for the Latin letters the bot deals with. */
  function ToLowerChar(c: char): (l: char)
    ensures IsUpperLatin(c) ==> l as int == c as int + 32
    ensures !IsUpperLatin(c) ==> l == c
    ensures !IsUpperLatin(l)
  {
    if IsUpperLatin(c) then (c as int + 32) as char else c
  }

  /** `toLowerCase` on a string, character by character. */
  function Lower(s: string): (r: string)
    ensures |r| == |s|
    ensures forall i :: 0 <= i < |s| ==> r[i] == ToLowerChar(s[i])
  {
    seq(|s|, i requires 0 <= i < |s| => ToLowerChar(s[i]))
  }

  /** Lower-casing twice is lower-casing once. */
  lemma LowerIdempotent(s: string)
    ensures Lower(Lower(s)) == Lower(s)
  {
  }

  /** The ECMAScript `\s` class: white space and line terminators. */
  predicate IsSpace(c: char)
  {
    || c == '\t' || c == '\n' || c == '\U{0B}' || c == '\U{0C}' || c == '\r' || c == ' '
    || c == '\U{A0}' || c == '\U{1680}' || ('\U{2000}' <= c <= '\U{200A}')
    || c == '\U{2028}' || c == '\U{2029}' || c == '\U{202F}' || c == '\U{205F}'
    || c == '\U{3000}' || c == '\U{FEFF}'
  }

  /** `s.startsWith(prefix)`. */
  predicate StartsWith(s: string, prefix: string)
  {
    |prefix| <= |s| && s[..|prefix|] == prefix
  }

  /** `s.endsWith(suffix)`. */
  predicate EndsWith(s: string, suffix: string)
  {
    |suffix| <= |s| && s[|s| - |suffix|..] == suffix
  }

  /** `s.split(sep)` for a one-character separator: every occurrence of `sep`
      ends a part, so consecutive, leading and trailing separators give empty
      parts, and the empty string gives one empty part. */
  function SplitOn(s: string, sep: char): (parts: seq<string>)
    ensures |parts| >= 1
    ensures forall i :: 0 <= i < |parts| ==> sep !in parts[i]
  {
    if s == [] then [""]
    else
      var rest := SplitOn(s[1..], sep);
      if s[0] == sep then [""] + rest
      else [[s[0]] + rest[0]] + rest[1..]
  }

  /** `parts.join(sep)`: the inverse partner of SplitOn. */
  function Join(parts: seq<string>, sep: char): string
    requires |parts| >= 1
  {
    if |parts| == 1 then parts[0] else parts[0] + [sep] + Join(parts[1..], sep)
  }

  /** Splitting loses nothing: joining the parts with the separator gives back the input. */
  lemma {:induction false} JoinSplitOn(s: string, sep: char)
    ensures Join(SplitOn(s, sep), sep) == s
  {
    if s != [] {
      var rest := SplitOn(s[1..], sep);
      JoinSplitOn(s[1..], sep);
      if s[0] != sep {
        var parts := SplitOn(s, sep);
        assert parts[0] == [s[0]] + rest[0];
        if |rest| == 1 {
          assert parts == [[s[0]] + rest[0]];
        } else {
          assert parts[1..] == rest[1..];
          assert Join(parts, sep) == [s[0]] + rest[0] + [sep] + Join(rest[1..], sep);
        }
      }
    }
  }

  /** Lower-cases every part of a list. */
  function LowerAll(parts: seq<string>): (r: seq<string>)
    ensures |r| == |parts|
    ensures forall i :: 0 <= i < |parts| ==> r[i] == Lower(parts[i])
  {
    seq(|parts|, i requires 0 <= i < |parts| => Lower(parts[i]))
  }

  /** Lower-casing never creates or removes a space, so it commutes with splitting on one. */
  lemma {:induction false} SplitOnLower(s: string)
    ensures SplitOn(Lower(s), ' ') == LowerAll(SplitOn(s, ' '))
  {
    if s != [] {
      var ls := Lower(s);
      assert ls[1..] == Lower(s[1..]);
      SplitOnLower(s[1..]);
      var rest := SplitOn(s[1..], ' ');
      var lrest := SplitOn(ls[1..], ' ');
      assert lrest == LowerAll(rest);
      if s[0] != ' ' {
        assert ls[0] != ' ';
        assert Lower([s[0]] + rest[0]) == [ls[0]] + lrest[0];
        assert SplitOn(ls, ' ') == [[ls[0]] + lrest[0]] + lrest[1..];
      } else {
        assert ls[0] == ' ';
      }
    }
  }
}
