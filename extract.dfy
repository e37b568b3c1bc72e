/**
  The word and emoji extractors of the statistics manager, and the stop-word
  filter that decides which words reach the group's word-frequency table.
*/
module Extract {
  import opened Text

  /** Portuguese accented lower-case letters kept next to `\w` by the cleaning step. */
  const AccentedLetters: string := "áàâãéèêíìîóòôõúùûç"

  /** `\w` without the `u` flag (ASCII letters, digits, underscore) or an accented letter. */
  predicate IsWordChar(c: char)
  {
    ('a' <= c <= 'z') || ('A' <= c <= 'Z') || ('0' <= c <= '9') || c == '_' || c in AccentedLetters
  }

  /** Word characters are never white space. */
  lemma WordCharNotSpace(c: char)
    requires IsWordChar(c)
    ensures !IsSpace(c)
  {
  }

  /** The cleaning step: every character that is neither a word character nor
      white space becomes a space. */
  function Clean(s: string): (r: string)
    ensures |r| == |s|
    ensures forall i :: 0 <= i < |s| ==> r[i] == if IsWordChar(s[i]) || IsSpace(s[i]) then s[i] else ' '
  {
    seq(|s|, i requires 0 <= i < |s| => if IsWordChar(s[i]) || IsSpace(s[i]) then s[i] else ' ')
  }

  /** Length of the leading run of non-white-space characters. */
  function RunLength(s: string): (n: nat)
    ensures n <= |s|
    ensures forall i :: 0 <= i < n ==> !IsSpace(s[i])
    ensures n < |s| ==> IsSpace(s[n])
  {
    if s == [] || IsSpace(s[0]) then 0 else 1 + RunLength(s[1..])
  }

  /** `s.split(/\s+/).filter(w => w.length > 0)`: the maximal runs of
      non-white-space characters, in order. */
  function Tokens(s: string): (ws: seq<string>)
    ensures forall i :: 0 <= i < |ws| ==> ws[i] != []
    ensures forall i, c :: 0 <= i < |ws| && c in ws[i] ==> c in s && !IsSpace(c)
    decreases |s|
  {
    if s == [] then []
    else if IsSpace(s[0]) then
      assert forall c :: c in s[1..] ==> c in s;
      Tokens(s[1..])
    else
      var n := RunLength(s);
      assert forall c :: c in s[..n] ==> c in s && !IsSpace(c);
      assert forall c :: c in s[n..] ==> c in s;
      [s[..n]] + Tokens(s[n..])
  }

  /** A word without white space, followed by nothing or by white space, is one whole run. */
  lemma {:induction false} RunLengthOfWord(w: string, rest: string)
    requires forall i :: 0 <= i < |w| ==> !IsSpace(w[i])
    requires rest == [] || IsSpace(rest[0])
    ensures RunLength(w + rest) == |w|
  {
    if w != [] {
      assert (w + rest)[0] == w[0];
      assert (w + rest)[1..] == w[1..] + rest;
      RunLengthOfWord(w[1..], rest);
    }
  }

  /** A word without white space followed by white space (or nothing) is the first token. */
  lemma TokensOfWordThen(w: string, rest: string)
    requires w != [] && forall i :: 0 <= i < |w| ==> !IsSpace(w[i])
    requires rest == [] || IsSpace(rest[0])
    ensures Tokens(w + rest) == [w] + Tokens(rest)
  {
    RunLengthOfWord(w, rest);
    assert (w + rest)[..|w|] == w && (w + rest)[|w|..] == rest;
  }

  /** Tokenising undoes joining with single spaces: words that are non-empty
      and free of white space come back as they were. */
  lemma {:induction false} TokensOfJoin(ws: seq<string>)
    requires |ws| >= 1
    requires forall i :: 0 <= i < |ws| ==> ws[i] != []
    requires forall i, j :: 0 <= i < |ws| && 0 <= j < |ws[i]| ==> !IsSpace(ws[i][j])
    ensures Tokens(Join(ws, ' ')) == ws
    decreases |ws|
  {
    if |ws| == 1 {
      TokensOfWordThen(ws[0], []);
      assert ws[0] + [] == Join(ws, ' ');
    } else {
      var tail := Join(ws[1..], ' ');
      assert Join(ws, ' ') == ws[0] + ([' '] + tail);
      TokensOfWordThen(ws[0], [' '] + tail);
      assert ([' '] + tail)[1..] == tail;
      TokensOfJoin(ws[1..]);
    }
  }

  /** All the tokens one after another. */
  function Concat(ws: seq<string>): string
  {
    if ws == [] then [] else ws[0] + Concat(ws[1..])
  }

  /** The characters of `s` that are not white space, in order. */
  function NonSpace(s: string): string
  {
    if s == [] then [] else (if IsSpace(s[0]) then [] else [s[0]]) + NonSpace(s[1..])
  }

  lemma {:induction false} NonSpaceAppend(a: string, b: string)
    ensures NonSpace(a + b) == NonSpace(a) + NonSpace(b)
  {
    if a == [] {
      assert a + b == b;
    } else {
      assert (a + b)[0] == a[0];
      assert (a + b)[1..] == a[1..] + b;
      NonSpaceAppend(a[1..], b);
    }
  }

  lemma {:induction false} NonSpaceOfRun(s: string)
    requires forall i :: 0 <= i < |s| ==> !IsSpace(s[i])
    ensures NonSpace(s) == s
  {
    if s != [] {
      NonSpaceOfRun(s[1..]);
    }
  }

  /** Tokenising keeps every non-space character, in order, and nothing else. */
  lemma {:induction false} ConcatTokens(s: string)
    ensures Concat(Tokens(s)) == NonSpace(s)
    decreases |s|
  {
    if s != [] {
      if IsSpace(s[0]) {
        ConcatTokens(s[1..]);
      } else {
        var n := RunLength(s);
        ConcatTokens(s[n..]);
        assert s == s[..n] + s[n..];
        NonSpaceAppend(s[..n], s[n..]);
        NonSpaceOfRun(s[..n]);
        assert Tokens(s)[1..] == Tokens(s[n..]);
      }
    }
  }

  /** `extractWords`: lower-case, clean, split on white space, drop empty tokens. */
  function ExtractWords(text: string): (ws: seq<string>)
    ensures forall i :: 0 <= i < |ws| ==> ws[i] != []
    ensures forall i, c :: 0 <= i < |ws| && c in ws[i] ==> IsWordChar(c) && !IsSpace(c) && ToLowerChar(c) == c
  {
    CleanLowerChars(text);
    Tokens(Clean(Lower(text)))
  }

  /** Every non-space character left after lower-casing and cleaning is a
      lower-case word character. */
  lemma CleanLowerChars(text: string)
    ensures forall c :: c in Clean(Lower(text)) && !IsSpace(c) ==> IsWordChar(c) && ToLowerChar(c) == c
  {
    var cl := Clean(Lower(text));
    forall c | c in cl && !IsSpace(c)
      ensures IsWordChar(c) && ToLowerChar(c) == c
    {
      var j :| 0 <= j < |cl| && cl[j] == c;
      assert c == Lower(text)[j] == ToLowerChar(text[j]);
    }
  }

  /** The characters of `s` that are word characters, in order. */
  function WordChars(s: string): string
  {
    if s == [] then [] else (if IsWordChar(s[0]) then [s[0]] else []) + WordChars(s[1..])
  }

  lemma {:induction false} NonSpaceClean(s: string)
    ensures NonSpace(Clean(s)) == WordChars(s)
  {
    if s != [] {
      assert Clean(s)[1..] == Clean(s[1..]);
      NonSpaceClean(s[1..]);
      if IsWordChar(s[0]) {
        WordCharNotSpace(s[0]);
      }
    }
  }

  /** The words of a message, glued together, are exactly the word characters
      of the lower-cased message: the extractor drops separators and nothing else. */
  lemma ExtractWordsKeepsWordChars(text: string)
    ensures Concat(ExtractWords(text)) == WordChars(Lower(text))
  {
    ConcatTokens(Clean(Lower(text)));
    NonSpaceClean(Lower(text));
  }

  /** The code-point ranges of the emoji pattern, in the order the pattern lists them. */
  predicate IsEmoji(c: char)
  {
    || ('\U{1F600}' <= c <= '\U{1F64F}')
    || ('\U{1F300}' <= c <= '\U{1F5FF}')
    || ('\U{1F680}' <= c <= '\U{1F6FF}')
    || ('\U{1F700}' <= c <= '\U{1F77F}')
    || ('\U{1F780}' <= c <= '\U{1F7FF}')
    || ('\U{1F800}' <= c <= '\U{1F8FF}')
    || ('\U{2600}' <= c <= '\U{26FF}')
    || ('\U{2700}' <= c <= '\U{27BF}')
  }

  /** `extractEmojis`: every emoji character of the text, as a one-character
      string, in order of appearance and with repetitions (`match(...) || []`). */
  function ExtractEmojis(text: string): (es: seq<string>)
    ensures forall i :: 0 <= i < |es| ==> |es[i]| == 1 && IsEmoji(es[i][0]) && es[i][0] in text
    ensures |es| <= |text|
  {
    if text == [] then []
    else (if IsEmoji(text[0]) then [[text[0]]] else []) + ExtractEmojis(text[1..])
  }

  /** Emoji extraction works piece by piece: the emojis of a concatenation are
      those of the first part followed by those of the second. */
  lemma {:induction false} ExtractEmojisAppend(a: string, b: string)
    ensures ExtractEmojis(a + b) == ExtractEmojis(a) + ExtractEmojis(b)
  {
    if a == [] {
      assert a + b == b;
    } else {
      assert (a + b)[0] == a[0];
      assert (a + b)[1..] == a[1..] + b;
      ExtractEmojisAppend(a[1..], b);
    }
  }

  /** A text without emoji characters yields the empty list, and only such a text. */
  lemma {:induction false} ExtractEmojisEmpty(text: string)
    ensures ExtractEmojis(text) == [] <==> forall i :: 0 <= i < |text| ==> !IsEmoji(text[i])
  {
    if text != [] {
      ExtractEmojisEmpty(text[1..]);
      assert forall i :: 1 <= i < |text| ==> text[i] == text[1..][i - 1];
    }
  }

  /** The stop words of the statistics manager, line by line as the source lists them. */
  const StopWordLines: seq<set<string>> := [
    {"a", "o", "e", "de", "do", "da", "em", "um", "uma", "para", "com", "não", "na", "por"},
    {"que", "se", "te", "ao", "os", "as", "dos", "das", "no", "mas", "ou", "este", "esta"},
    {"eu", "tu", "ele", "ela", "nós", "vós", "eles", "elas", "meu", "minha", "seu", "sua"},
    {"é", "são", "foi", "tem", "ter", "só", "já", "mais", "muito", "bem", "vai", "vou"}
  ]

  /** Membership in one of the given lines. */
  predicate InSomeLine(w: string, lines: seq<set<string>>)
    decreases |lines|
  {
    |lines| > 0 && (w in lines[0] || InSomeLine(w, lines[1..]))
  }

  /** `stopWords.has(w)`. */
  predicate IsStopWord(w: string)
  {
    InSomeLine(w, StopWordLines)
  }

  /** No stop word is longer than five characters. */
  lemma StopWordsShort(w: string)
    requires IsStopWord(w)
    ensures |w| <= 5
  {
    var ls := StopWordLines;
    assert InSomeLine(w, ls);
    if w !in ls[0] {
      assert InSomeLine(w, ls[1..]);
      if w !in ls[1] {
        assert ls[1..][1..] == ls[2..];
        assert InSomeLine(w, ls[2..]);
        if w !in ls[2] {
          assert ls[2..][1..] == ls[3..];
          assert InSomeLine(w, ls[3..]);
          assert w in ls[3];
        }
      }
    }
  }

  /** The filter in front of the word-frequency table: not a stop word (after
      lower-casing) and longer than two UTF-16 units. */
  predicate Counted(w: string)
  {
    !IsStopWord(Lower(w)) && Utf16Length(w) > 2
  }

  /** Stop words and words of at most two units never pass the filter; words
      that pass are at least three characters long. */
  lemma CountedExcludes(w: string)
    ensures IsStopWord(w) && Lower(w) == w ==> !Counted(w)
    ensures Utf16Length(w) <= 2 ==> !Counted(w)
    ensures Counted(w) && (forall i :: 0 <= i < |w| ==> w[i] as int < 0x10000) ==> |w| >= 3
  {
  }
}
