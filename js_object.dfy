/**
  The word-frequency table as the code writes it: a plain object literal,
  so reading a missing key falls back to `Object.prototype`. Two lower-case
  word-character names live there, `constructor` and `__proto__`, and both
  pass the word filter. This module follows the table through that lookup
  and shows the two words miscounted; the rest of the model keeps word
  counts in a `map`, with the intended own-key semantics.
*/
module JsObject {
  import opened Text
  import opened Extract
  import opened StatsModel

  /** The values that reading and bumping a table entry can produce. */
  datatype JsValue = Undefined | Number(n: int) | NaN | Str(s: string) | Function(source: string) | Prototype

  /** What `String(Object)` gives: the source text of the built-in constructor. */
  const ObjectSource: string := "function Object() { [native code] }"

  /** `table[key]` on an object whose prototype is `Object.prototype`, for
      lower-case keys: own keys first, then the inherited `constructor`, while
      `__proto__` always reads the prototype itself. The other inherited names
      (`valueOf`, `toString`, `hasOwnProperty`, `__defineGetter__`, ...) each
      hold a capital letter, so no extracted word reaches them. */
  function Read(own: map<string, JsValue>, key: string): JsValue
  {
    if key == "__proto__" then Prototype
    else if key in own then own[key]
    else if key == "constructor" then Function(ObjectSource)
    else Undefined
  }

  /** Whether `v || 0` keeps `v`. */
  predicate Truthy(v: JsValue)
  {
    match v
    case Undefined => false
    case Number(n) => n != 0
    case NaN => false
    case Str(s) => s != ""
    case Function(_) => true
    case Prototype => true
  }

  /** `v + 1`: numbers add, everything else is turned into text and gets `"1"` appended. */
  function PlusOne(v: JsValue): JsValue
  {
    match v
    case Undefined => NaN
    case Number(n) => Number(n + 1)
    case NaN => NaN
    case Str(s) => Str(s + "1")
    case Function(source) => Str(source + "1")
    case Prototype => Str("[object Object]1")
  }

  /** `table[key] = v`: assigning a non-object to `__proto__` is ignored. */
  function Write(own: map<string, JsValue>, key: string, v: JsValue): map<string, JsValue>
  {
    if key == "__proto__" then own else own[key := v]
  }

  /** `table[key] = (table[key] || 0) + 1`, as written. */
  function BumpAsWritten(own: map<string, JsValue>, key: string): map<string, JsValue>
  {
    var v := Read(own, key);
    Write(own, key, PlusOne(if Truthy(v) then v else Number(0)))
  }

  /** The word loop over the plain-object table. */
  function CountWordsAsWritten(own: map<string, JsValue>, words: seq<string>): map<string, JsValue>
  {
    if words == [] then own
    else
      var t := CountWordsAsWritten(own, words[..|words| - 1]);
      var w := words[|words| - 1];
      if Counted(w) then BumpAsWritten(t, w) else t
  }

  /** The table holds, as numbers, exactly the counts of a map. */
  ghost predicate Mirrors(own: map<string, JsValue>, m: map<string, nat>)
  {
    && own.Keys == m.Keys
    && forall k :: k in m ==> own[k] == Number(m[k])
  }

  /** For every other lower-case key the plain object behaves like the map. */
  lemma BumpAsWrittenAgrees(own: map<string, JsValue>, m: map<string, nat>, key: string)
    requires Mirrors(own, m)
    requires Lower(key) == key
    requires key != "constructor" && key != "__proto__"
    ensures Mirrors(BumpAsWritten(own, key), Bump(m, key))
  {
    assert Read(own, key) == if key in m then Number(m[key]) else Undefined;
  }

  /** Lower-case words other than the two prototype names are counted alike by both tables. */
  lemma {:induction false} CountWordsAsWrittenAgrees(words: seq<string>)
    requires forall i :: 0 <= i < |words| ==> Lower(words[i]) == words[i]
    requires forall i :: 0 <= i < |words| ==> words[i] != "constructor" && words[i] != "__proto__"
    ensures Mirrors(CountWordsAsWritten(map[], words), CountWords(map[], words))
  {
    if words != [] {
      var init := words[..|words| - 1];
      assert forall i :: 0 <= i < |init| ==> init[i] == words[i];
      CountWordsAsWrittenAgrees(init);
      if Counted(words[|words| - 1]) {
        BumpAsWrittenAgrees(CountWordsAsWritten(map[], init), CountWords(map[], init), words[|words| - 1]);
      }
    }
  }

  /** Every extracted word is already lower-case, so the word loop only sees
      lower-case keys. */
  lemma ExtractedWordsLower(text: string)
    ensures forall i :: 0 <= i < |ExtractWords(text)| ==> Lower(ExtractWords(text)[i]) == ExtractWords(text)[i]
  {
    var ws := ExtractWords(text);
    forall i | 0 <= i < |ws|
      ensures Lower(ws[i]) == ws[i]
    {
      forall j | 0 <= j < |ws[i]|
        ensures Lower(ws[i])[j] == ws[i][j]
      {
        assert ws[i][j] in ws[i];
      }
    }
  }

  /** The message "constructor __proto__" yields both names as words. */
  lemma PrototypeNamesExtracted()
    ensures ExtractWords("constructor __proto__") == ["constructor", "__proto__"]
  {
    CleanLowerOfPlain("constructor __proto__");
    PrototypeNamesJoined();
    PrototypeNamesPlain();
    TokensOfJoin(["constructor", "__proto__"]);
  }

  /** The message is the two names joined by one space. */
  lemma PrototypeNamesJoined()
    ensures Join(["constructor", "__proto__"], ' ') == "constructor __proto__"
  {
    assert Join(["constructor", "__proto__"][1..], ' ') == "__proto__";
  }

  /** Neither name holds white space. */
  lemma PrototypeNamesPlain()
    ensures forall i, j :: 0 <= i < 2 && 0 <= j < |["constructor", "__proto__"][i]| ==>
              !IsSpace(["constructor", "__proto__"][i][j])
  {
  }

  /** Lower-casing and cleaning leave a text of lower-case word characters and spaces as it is. */
  lemma CleanLowerOfPlain(text: string)
    requires forall i :: 0 <= i < |text| ==> ('a' <= text[i] <= 'z') || text[i] == '_' || text[i] == ' '
    ensures Clean(Lower(text)) == text
  {
  }

  /** Both names pass the stop-word and length filter. */
  lemma PrototypeNamesCounted()
    ensures Counted("constructor") && Counted("__proto__")
  {
    assert Lower("constructor") == "constructor";
    assert Lower("__proto__") == "__proto__";
    if IsStopWord("constructor") {
      StopWordsShort("constructor");
    }
    if IsStopWord("__proto__") {
      StopWordsShort("__proto__");
    }
  }

  /** As written, the two words leave the counts-to-be as a text and a gap. */
  lemma PrototypeTableAsWritten()
    ensures CountWordsAsWritten(map[], ["constructor", "__proto__"]) == map["constructor" := Str(ObjectSource + "1")]
  {
    PrototypeNamesCounted();
    var ws := ["constructor", "__proto__"];
    assert ws[..1] == ["constructor"] && ws[..1][..0] == [];
    assert CountWordsAsWritten(map[], ws[..1]) == BumpAsWritten(map[], "constructor");
  }

  /** With own-key semantics each of the two words is counted once. */
  lemma PrototypeTableIntended()
    ensures CountWords(map[], ["constructor", "__proto__"]) == map["constructor" := 1, "__proto__" := 1]
  {
    PrototypeNamesCounted();
    var ws := ["constructor", "__proto__"];
    assert ws[..1] == ["constructor"] && ws[..1][..0] == [];
    assert CountWords(map[], ws[..1]) == map["constructor" := 1];
  }

  /** The miscount: for the words of "constructor __proto__", both of which
      pass the filter, the table ends up holding the text
      "function Object() { [native code] }1" for the first and nothing for
      the second, where the intended counts are 1 and 1. */
  lemma PrototypeWordsMiscounted()
    ensures ExtractWords("constructor __proto__") == ["constructor", "__proto__"]
    ensures Counted("constructor") && Counted("__proto__")
    ensures CountWordsAsWritten(map[], ExtractWords("constructor __proto__"))
              == map["constructor" := Str(ObjectSource + "1")]
    ensures CountWords(map[], ExtractWords("constructor __proto__")) == map["constructor" := 1, "__proto__" := 1]
  {
    PrototypeNamesExtracted();
    PrototypeNamesCounted();
    PrototypeTableAsWritten();
    PrototypeTableIntended();
  }
}
