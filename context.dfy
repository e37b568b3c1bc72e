/**
  The bounded conversation context: per chat, the latest messages, oldest
  first, at most five of them.
*/
module Context {
  /** Capacity of a chat's context. */
  const MaxContextSize: nat := 5

  /** The last `n` elements of `s`, oldest first (all of `s` when it is shorter). */
  function LastN<T>(s: seq<T>, n: nat): (r: seq<T>)
    ensures |r| == if |s| <= n then |s| else n
    ensures forall i :: 0 <= i < |r| ==> r[i] == s[|s| - |r| + i]
  {
    if |s| <= n then s else s[|s| - n..]
  }

  /** `addMessage` on one context: append, then drop the oldest when over capacity. */
  function Push(context: seq<string>, message: string): (r: seq<string>)
    ensures |r| == if |context| < MaxContextSize then |context| + 1 else |context|
    ensures r[|r| - 1] == message
    ensures forall i :: 0 <= i < |r| - 1 ==> r[i] == context[|context| - (|r| - 1) + i]
  {
    var c := context + [message];
    if |c| > MaxContextSize then c[1..] else c
  }

  /** Pushing onto the window of a history gives the window of the longer
      history: the context is always the last five messages added. */
  lemma PushIsLastN(history: seq<string>, message: string)
    ensures Push(LastN(history, MaxContextSize), message) == LastN(history + [message], MaxContextSize)
  {
    var w := LastN(history, MaxContextSize);
    var h := history + [message];
    var p := Push(w, message);
    var l := LastN(h, MaxContextSize);
    assert |p| == |l|;
    forall i | 0 <= i < |p|
      ensures p[i] == l[i]
    {
      if |w| + 1 > MaxContextSize {
        assert p[i] == (w + [message])[i + 1];
      }
    }
  }

  /** The message just added is the newest element, and the capacity holds. */
  lemma PushKeepsNewest(context: seq<string>, message: string)
    requires |context| <= MaxContextSize
    ensures |Push(context, message)| <= MaxContextSize
    ensures Push(context, message)[|Push(context, message)| - 1] == message
    ensures |context| < MaxContextSize ==> Push(context, message) == context + [message]
  {
  }

  /** A chat's entry, or the empty list for an unknown chat. */
  function Lookup(m: map<string, seq<string>>, chatId: string): seq<string>
  {
    if chatId in m then m[chatId] else []
  }

  /** Every context is the last five messages of its chat's history. */
  ghost predicate Windowed(contexts: map<string, seq<string>>, history: map<string, seq<string>>)
  {
    && contexts.Keys == history.Keys
    && forall c :: c in contexts ==> contexts[c] == LastN(history[c], MaxContextSize)
  }

  /** Pushing onto one chat's context while appending to its history keeps
      the windows; an unknown chat starts from empty ones. */
  lemma WindowedPush(contexts: map<string, seq<string>>, history: map<string, seq<string>>,
                     chatId: string, message: string)
    requires Windowed(contexts, history)
    ensures Windowed(contexts[chatId := Push(Lookup(contexts, chatId), message)],
                     history[chatId := Lookup(history, chatId) + [message]])
  {
    PushIsLastN(Lookup(history, chatId), message);
  }

  class ContextManager {
    /** Chat id to its context. */
    var contexts: map<string, seq<string>>
    /** Chat id to every message added since the chat was created or last cleared. */
    ghost var history: map<string, seq<string>>

    /** Every stored context is the last five messages of its chat's history. */
    ghost predicate Valid()
      reads this
    {
      Windowed(contexts, history)
    }

    constructor()
      ensures contexts == map[] && history == map[]
      ensures Valid()
    {
      contexts := map[];
      history := map[];
    }

    /** `addMessage`: creates the chat's context when missing, appends the
        message and drops the oldest one when over capacity. */
    method AddMessage(chatId: string, message: string)
      requires Valid()
      modifies this
      ensures Valid()
      ensures history == old(history)[chatId := Lookup(old(history), chatId) + [message]]
      ensures contexts == old(contexts)[chatId := Push(Lookup(old(contexts), chatId), message)]
      ensures |contexts[chatId]| <= MaxContextSize
      ensures contexts[chatId][|contexts[chatId]| - 1] == message
    {
      // a chat seen for the first time starts from an empty context and history
      var context := Lookup(contexts, chatId);
      ghost var h := Lookup(history, chatId);
      WindowedPush(contexts, history, chatId, message);
      PushKeepsNewest(context, message);
      context := context + [message];
      if |context| > MaxContextSize {
        context := context[1..];
      }
      contexts := contexts[chatId := context];
      history := history[chatId := h + [message]];
    }

    /** `getContext`: the chat's context, or the empty list for an unknown chat. */
    function GetContext(chatId: string): (r: seq<string>)
      reads this
      ensures chatId !in contexts ==> r == []
      ensures Valid() ==> |r| <= MaxContextSize
      ensures Valid() && chatId in history ==> r == LastN(history[chatId], MaxContextSize)
    {
      if chatId in contexts then contexts[chatId] else []
    }

    /** `clearContext`: forgets the chat; every other chat keeps its context. */
    method ClearContext(chatId: string)
      requires Valid()
      modifies this
      ensures Valid()
      ensures contexts == old(contexts) - {chatId}
      ensures history == old(history) - {chatId}
      ensures GetContext(chatId) == []
    {
      contexts := contexts - {chatId};
      history := history - {chatId};
    }
  }
}
