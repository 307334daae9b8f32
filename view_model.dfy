/**
 * The baking view-model: the chat history it keeps in memory and in its
 * preference file, the status it shows to the chat screen, and the pause flag
 * of its text-to-speech playback. Background work launched by an operation is
 * taken to run to completion before the next operation starts.
 */
module ViewModel {
  import opened ChatHistory

  /** What the chat screen renders. */
  datatype UiState = Initial | Loading | Success(outputText: string) | Error(errorMessage: string)

  /**
   * The outcome of the generative-model call: a response with text, a response
   * whose text is null, or an exception with its localized message (possibly null).
   */
  datatype Reply = Answered(text: string) | NoText | Failed(localizedMessage: Option<string>)

  /** How a new utterance joins the speech engine's queue. */
  datatype QueueMode = QueueFlush | QueueAdd

  /** What a request to speak hands to the speech engine, with its queue mode. */
  datatype Utterance = Silence(durationMs: nat, mode: QueueMode) | Speech(text: string, mode: QueueMode)

  const LoadedMessage: string := "Historial cargado"
  const ClearedMessage: string := "Historial limpiado"

  /** The status an exception leaves: its localized message, or "" when that is null. */
  function ErrorStatus(localizedMessage: Option<string>): (r: UiState)
    ensures r.Error?
    ensures localizedMessage.Some? ==> r.errorMessage == localizedMessage.value
    ensures localizedMessage.None? ==> r.errorMessage == ""
  {
    Error(if localizedMessage.Some? then localizedMessage.value else "")
  }

  class BakingViewModel {
    var uiState: UiState
    var history: seq<QuestionAnswer>
    var store: Preferences
    var isPaused: bool

    /** The object invariant: nothing ever sets the pause flag. */
    ghost predicate Valid()
      reads this
    {
      !isPaused
    }

    /** The store holds exactly the questions and answers of the in-memory history. */
    ghost predicate Persisted()
      reads this
    {
      HistoryKey in store && store[HistoryKey] == JsonArray(Serialize(history))
    }

    /** A view-model over the preference file `prefs`; creating it loads the stored history. */
    constructor (prefs: Preferences, stamps: nat -> Timestamp)
      ensures Valid()
      ensures store == prefs
      ensures StoredHistory(prefs).None? ==> history == [] && uiState == Initial
      ensures StoredHistory(prefs).Some? ==>
        history == Restored(StoredHistory(prefs).value, FirstRestoredIndex, stamps)
        && uiState == Success(LoadedMessage)
    {
      uiState := Initial;
      history := [];
      store := prefs;
      isPaused := false;
      new;
      LoadHistory(stamps);
    }

    /**
     * Sends `prompt`; `reply` is what the generative model answered and `now` the
     * clock reading taken when the answer is recorded. `statuses` lists the
     * values assigned to the status during the call, in order.
     */
    method SendPrompt(prompt: string, reply: Reply, now: Timestamp) returns (statuses: seq<UiState>)
      modifies this`uiState, this`history, this`store
      ensures |statuses| > 0 && statuses[0] == Loading && uiState == statuses[|statuses| - 1]
      ensures reply.Answered? ==>
        && statuses == [Loading, Success(reply.text)]
        && history == old(history) + [QuestionAnswer(prompt, reply.text, now)]
        && store == old(store)[HistoryKey := JsonArray(Serialize(history))]
        && Persisted()
      ensures reply.NoText? ==>
        statuses == [Loading] && history == old(history) && store == old(store)
      ensures reply.Failed? ==>
        statuses == [Loading, ErrorStatus(reply.localizedMessage)]
        && history == old(history) && store == old(store)
    {
      uiState := Loading;
      statuses := [uiState];
      match reply {
        case Answered(text) =>
          uiState := Success(text);
          statuses := statuses + [uiState];
          AddToHistory(prompt, text, now);
        case NoText =>
        case Failed(message) =>
          uiState := ErrorStatus(message);
          statuses := statuses + [uiState];
      }
    }

    /**
     * Asks the speech engine to speak `text` in place of whatever it is saying,
     * or, when playback is paused, to queue a 1 ms silence after it; either way
     * playback is no longer paused.
     */
    method SpeakText(text: string) returns (utterance: Utterance)
      modifies this`isPaused
      ensures !isPaused
      ensures utterance == if old(isPaused) then Silence(1, QueueAdd) else Speech(text, QueueFlush)
      ensures old(Valid()) ==> utterance == Speech(text, QueueFlush)
    {
      if isPaused {
        utterance := Silence(1, QueueAdd);
      } else {
        utterance := Speech(text, QueueFlush);
      }
      isPaused := false;
    }

    /** Stops the speech engine; playback is no longer paused. */
    method StopText()
      modifies this`isPaused
      ensures !isPaused
    {
      isPaused := false;
    }

    /** Appends one record at the end of the history and saves the history. */
    method AddToHistory(question: string, answer: string, timestamp: Timestamp)
      modifies this`history, this`store
      ensures history == old(history) + [QuestionAnswer(question, answer, timestamp)]
      ensures store == old(store)[HistoryKey := JsonArray(Serialize(history))]
      ensures Persisted()
    {
      history := history + [QuestionAnswer(question, answer, timestamp)];
      SaveHistory();
    }

    /** Writes the question and answer of every record, in order, under the history key. */
    method SaveHistory()
      modifies this`store
      ensures store == old(store)[HistoryKey := JsonArray(Serialize(history))]
      ensures Persisted()
    {
      var entries: seq<Entry> := [];
      var i := 0;
      while i < |history|
        invariant 0 <= i <= |history|
        invariant entries == Serialize(history[..i])
        invariant store == old(store)
      {
        assert history[..i + 1] == history[..i] + [history[i]];
        SerializeAppend(history[..i], history[i]);
        entries := entries + [Entry(history[i].question, history[i].answer)];
        i := i + 1;
      }
      assert history[..i] == history;
      store := store[HistoryKey := JsonArray(entries)];
    }

    /**
     * Reads the stored array back and appends a record for each entry from index
     * 4 on, each stamped with the clock reading `stamps(i)` taken for entry `i`.
     * When the key is absent or holds the empty string nothing changes;
     * otherwise the status becomes "Historial cargado", even if nothing was appended.
     */
    method LoadHistory(stamps: nat -> Timestamp)
      modifies this`history, this`uiState
      ensures StoredHistory(store).None? ==> history == old(history) && uiState == old(uiState)
      ensures StoredHistory(store).Some? ==>
        history == old(history) + Restored(StoredHistory(store).value, FirstRestoredIndex, stamps)
        && uiState == Success(LoadedMessage)
    {
      var stored := StoredHistory(store);
      if stored.Some? {
        var entries := stored.value;
        var i := FirstRestoredIndex;
        while i < |entries|
          invariant FirstRestoredIndex <= i
          invariant history + Restored(entries, i, stamps)
                 == old(history) + Restored(entries, FirstRestoredIndex, stamps)
        {
          var qa := QuestionAnswer(entries[i].question, entries[i].answer, stamps(i));
          assert Restored(entries, i, stamps) == [qa] + Restored(entries, i + 1, stamps);
          history := history + [qa];
          i := i + 1;
        }
        uiState := Success(LoadedMessage);
      }
    }

    /** Empties the history, removes the history key and reports "Historial limpiado". */
    method ClearHistory()
      modifies this`history, this`store, this`uiState
      ensures history == []
      ensures store == old(store) - {HistoryKey}
      ensures HistoryKey !in store && StoredHistory(store).None?
      ensures uiState == Success(ClearedMessage)
    {
      history := [];
      store := store - {HistoryKey};
      uiState := Success(ClearedMessage);
    }
  }
}
