/** The bookkeeping of js/gemini-ai.js: the bounded conversation history, the
    exercise context, the key gate in front of the remote call and the key
    test that unlocks the chat panel. The HTTP exchange itself is an input:
    the model receives either the provider's error message or the reply text. */
module Chat {
  import opened Wrappers
  import Core

  /** Number of entries the history keeps. */
  const HistoryLimit := 10
  /** The placeholder a deploy replaces with a real key. */
  const ApiKeyPlaceholder := "REPLACE_ME_WITH_API_KEY"
  const NoContextMessage := "No hi ha context disponible."
  const MissingKeyError := "API Key no configurada"
  /** `refreshChatUI` unlocks the chat only for keys longer than this. */
  const UnlockKeyLength := 20

  datatype Message = Message(role: string, content: string, timestamp: int)

  /** Outcome of the `fetch` and JSON decoding in `callGeminiAPI`: an error
      (network failure, error envelope, missing candidates) with its message,
      or the text of the first candidate. */
  datatype ApiResponse = ErrorResponse(message: string) | TextResponse(text: string)

  /** `addToHistory` on values: append, then keep only the last ten entries.
      The new entry comes last, and what precedes it are the most recent old
      entries, in their order. */
  function PushBounded(history: seq<Message>, m: Message): (r: seq<Message>)
    ensures |r| == if |history| + 1 <= HistoryLimit then |history| + 1 else HistoryLimit
    ensures r[|r| - 1] == m
    ensures r[..|r| - 1] == history[|history| - (|r| - 1)..]
  {
    var h := history + [m];
    if |h| > HistoryLimit then h[|h| - HistoryLimit..] else h
  }

  /** Two pushes keep both new entries at the end, in push order, and never
      grow past the limit. */
  lemma {:induction false} PushTwiceEndsWithBoth(history: seq<Message>, a: Message, b: Message)
    ensures var r := PushBounded(PushBounded(history, a), b);
            |r| >= 2 && |r| <= HistoryLimit && r[|r| - 2] == a && r[|r| - 1] == b
  {
    var h1 := PushBounded(history, a);
    var r := PushBounded(h1, b);
    assert r[..|r| - 1] == h1[|h1| - (|r| - 1)..];
    assert r[|r| - 2] == r[..|r| - 1][|r| - 2];
  }

  /** `callGeminiAPI`'s gate: a key that is missing, empty or still the
      placeholder stops the call before any request. */
  predicate KeyConfigured(stored: Option<string>) {
    !(stored.None? || stored.value == "" || stored.value == ApiKeyPlaceholder)
  }

  /** `refreshChatUI`'s test: the chat panel is shown (and true returned) iff
      the stored key is present, not the placeholder and longer than 20. */
  predicate ChatUnlocked(stored: Option<string>) {
    stored.Some? && stored.value != "" && stored.value != ApiKeyPlaceholder
    && |stored.value| > UnlockKeyLength
  }

  /** An unlocked chat can always pass the call gate, and its key is one
      `hasApiKey` reports; the converse fails: a configured key of 15
      characters passes the gate while the panel stays locked. */
  lemma UnlockedKeyPassesGate(stored: Option<string>)
    ensures ChatUnlocked(stored) ==> KeyConfigured(stored) && Core.HasApiKeyValue(stored)
    ensures var short := Some("abcdefghijklmno");
            KeyConfigured(short) && !ChatUnlocked(short)
  {
    var short := Some("abcdefghijklmno");
    assert |short.value| == 15;
  }

  /** The chat state: the conversation history and the current exercise
      context (`C` is the page's context record; null is `None`). */
  class ChatSession<C> {
    var history: seq<Message>
    var context: Option<C>

    ghost predicate Valid()
      reads this
    {
      |history| <= HistoryLimit
    }

    constructor ()
      ensures Valid() && history == [] && context == None
    {
      history := [];
      context := None;
    }

    /** `initExerciseContext`: replaces the context and empties the history. */
    method InitExerciseContext(c: Option<C>)
      modifies this
      ensures Valid() && context == c && history == []
    {
      context := c;
      history := [];
    }

    /** `addToHistory`, with `Date.now()` passed as `now`. */
    method AddToHistory(role: string, content: string, now: int)
      requires Valid()
      modifies this`history
      ensures Valid()
      ensures history == PushBounded(old(history), Message(role, content, now))
      ensures |history| == if |old(history)| < HistoryLimit then |old(history)| + 1 else HistoryLimit
    {
      history := history + [Message(role, content, now)];
      if |history| > HistoryLimit {
        history := history[|history| - HistoryLimit..];
      }
    }

    /** `buildContextMessage`: the fixed sentence when no context is set;
        the text of a set context (a template over its fields) is `render`'s. */
    function BuildContextMessage(render: C -> string): (text: string)
      reads this
      ensures context.None? ==> text == NoContextMessage
    {
      match context
      case None => NoContextMessage
      case Some(c) => render(c)
    }

    /** `callGeminiAPI` (as `Result`: `Failure` is the thrown error). With no
        usable key it fails before any request and the history is untouched;
        an error response also leaves the history untouched; a reply appends
        the user's message and then the reply, each stamped with its own
        reading of the clock (`userAt`, then `replyAt`). */
    method CallGeminiAPI(store: Core.Store, userMessage: string, response: ApiResponse,
                         userAt: int, replyAt: int)
      returns (outcome: Result<string, string>)
      requires Valid()
      modifies this`history
      ensures Valid()
      ensures !KeyConfigured(store.GetApiKey()) ==>
                outcome == Failure(MissingKeyError) && history == old(history)
      ensures KeyConfigured(store.GetApiKey()) && response.ErrorResponse? ==>
                outcome == Failure(response.message) && history == old(history)
      ensures KeyConfigured(store.GetApiKey()) && response.TextResponse? ==>
                && outcome == Success(response.text)
                && history == PushBounded(PushBounded(old(history), Message("user", userMessage, userAt)),
                                          Message("assistant", response.text, replyAt))
    {
      var apiKey := store.GetApiKey();
      if !KeyConfigured(apiKey) {
        return Failure(MissingKeyError);
      }
      match response
      case ErrorResponse(message) =>
        outcome := Failure(message);
      case TextResponse(text) =>
        ghost var asked := PushBounded(history, Message("user", userMessage, userAt));
        AddToHistory("user", userMessage, userAt);
        assert history == asked;
        AddToHistory("assistant", text, replyAt);
        outcome := Success(text);
    }
  }

  /** `refreshChatUI`'s return value for the stored key. */
  function RefreshChatUI(store: Core.Store): (unlocked: bool)
    reads store
    ensures unlocked ==> KeyConfigured(store.GetApiKey()) && store.HasApiKey()
  {
    UnlockedKeyPassesGate(store.GetApiKey());
    ChatUnlocked(store.GetApiKey())
  }
}
