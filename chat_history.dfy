/**
 * The chat history of the baking view-model as values: the records it keeps,
 * the form in which it stores them under one preference key, and the loop that
 * reads them back.
 */
module ChatHistory {

  datatype Option<+T> = None | Some(value: T)

  /** A clock reading (a `LocalDateTime` in the app); the model never inspects it. */
  type Timestamp = int

  /** One exchange of the chat: the prompt, the model's reply and when it was recorded. */
  datatype QuestionAnswer = QuestionAnswer(question: string, answer: string, timestamp: Timestamp)

  /** One `{question, answer}` object of the stored JSON array; timestamps are not stored. */
  datatype Entry = Entry(question: string, answer: string)

  /** The string a preference key holds: the empty string, or the text of a JSON array of entries. */
  datatype Stored = EmptyString | JsonArray(entries: seq<Entry>)

  /** The preference file: a key that is absent reads back as null. */
  type Preferences = map<string, Stored>

  const HistoryKey: string := "history_key"

  /** The stored index at which the restoring loop starts. */
  const FirstRestoredIndex: nat := 4

  /** The JSON array that saving writes for history `h`: one entry per record, in order. */
  function Serialize(h: seq<QuestionAnswer>): (r: seq<Entry>)
    ensures |r| == |h|
  {
    if h == [] then [] else [Entry(h[0].question, h[0].answer)] + Serialize(h[1..])
  }

  /** Entry `i` of the saved array holds the question and answer of record `i`. */
  lemma {:induction false} SerializeAt(h: seq<QuestionAnswer>, i: nat)
    requires i < |h|
    ensures Serialize(h)[i] == Entry(h[i].question, h[i].answer)
  {
    if i > 0 {
      SerializeAt(h[1..], i - 1);
    }
  }

  /**
   * The records the restoring loop appends when it walks the stored entries from
   * index `from` to the end; the record for stored entry `i` carries the clock
   * reading `stamps(i)` taken when it was rebuilt.
   */
  function Restored(entries: seq<Entry>, from: nat, stamps: nat -> Timestamp): (r: seq<QuestionAnswer>)
    ensures |r| == if from <= |entries| then |entries| - from else 0
    decreases |entries| - from
  {
    if from >= |entries| then []
    else [QuestionAnswer(entries[from].question, entries[from].answer, stamps(from))]
         + Restored(entries, from + 1, stamps)
  }

  /** Restored record `j` is rebuilt from stored entry `from + j`, with the reading taken for it. */
  lemma {:induction false} RestoredAt(entries: seq<Entry>, from: nat, stamps: nat -> Timestamp, j: nat)
    requires from + j < |entries|
    ensures Restored(entries, from, stamps)[j]
         == QuestionAnswer(entries[from + j].question, entries[from + j].answer, stamps(from + j))
    decreases j
  {
    if j > 0 {
      RestoredAt(entries, from + 1, stamps, j - 1);
    }
  }

  /** The entries to restore when the key holds a non-empty string; None when it is null or empty. */
  function StoredHistory(prefs: Preferences): (r: Option<seq<Entry>>)
    ensures r.None? <==> HistoryKey !in prefs || prefs[HistoryKey] == EmptyString
    ensures r.Some? ==> prefs[HistoryKey] == JsonArray(r.value)
  {
    if HistoryKey in prefs && prefs[HistoryKey].JsonArray? then Some(prefs[HistoryKey].entries) else None
  }

  /** Saving after appending one record stores the old array with one entry more at its end. */
  lemma {:induction false} SerializeAppend(h: seq<QuestionAnswer>, qa: QuestionAnswer)
    ensures Serialize(h + [qa]) == Serialize(h) + [Entry(qa.question, qa.answer)]
  {
    if h != [] {
      assert (h + [qa])[1..] == h[1..] + [qa];
      SerializeAppend(h[1..], qa);
    }
  }

  /** Restoring from index `from` and saving again gives back the stored entries from `from` on. */
  lemma {:induction false} SerializeRestored(entries: seq<Entry>, from: nat, stamps: nat -> Timestamp)
    ensures Serialize(Restored(entries, from, stamps)) == if from <= |entries| then entries[from..] else []
    decreases |entries| - from
  {
    if from < |entries| {
      SerializeRestored(entries, from + 1, stamps);
      var tail := Restored(entries, from + 1, stamps);
      var qa := QuestionAnswer(entries[from].question, entries[from].answer, stamps(from));
      assert Restored(entries, from, stamps) == [qa] + tail;
      assert ([qa] + tail)[1..] == tail;
      assert entries[from..] == [entries[from]] + entries[from + 1..];
    }
  }

  /** Dropping the first `k` records before saving drops the first `k` entries of the array. */
  lemma {:induction false} SerializeDrop(h: seq<QuestionAnswer>, k: nat)
    requires k <= |h|
    ensures Serialize(h)[k..] == Serialize(h[k..])
  {
    if k > 0 {
      SerializeDrop(h[1..], k - 1);
      assert h[1..][k - 1..] == h[k..];
    }
  }

  /**
   * Save then load, as written: what is read back from the array saved for `h`
   * are the records of `h` without their first four (and nothing when `h` has
   * four records or fewer), with their questions and answers in order.
   */
  lemma SaveLoadRoundTrip(h: seq<QuestionAnswer>, stamps: nat -> Timestamp)
    ensures |Restored(Serialize(h), FirstRestoredIndex, stamps)| == if |h| <= 4 then 0 else |h| - 4
    ensures Serialize(Restored(Serialize(h), FirstRestoredIndex, stamps))
         == if |h| <= 4 then [] else Serialize(h[4..])
  {
    SerializeRestored(Serialize(h), FirstRestoredIndex, stamps);
    if |h| > 4 {
      SerializeDrop(h, 4);
    }
  }

  /** As written, reloading a non-empty saved history never gives back all of its records. */
  lemma ReloadLosesRecords(h: seq<QuestionAnswer>, stamps: nat -> Timestamp)
    requires |h| > 0
    ensures |Restored(Serialize(h), FirstRestoredIndex, stamps)| < |h|
    ensures Serialize(Restored(Serialize(h), FirstRestoredIndex, stamps)) != Serialize(h)
  {
    SaveLoadRoundTrip(h, stamps);
  }

  /** A one-record history is saved as one entry and reloaded as none. */
  lemma OneRecordReloadsEmpty(qa: QuestionAnswer, stamps: nat -> Timestamp)
    ensures Serialize([qa]) == [Entry(qa.question, qa.answer)]
    ensures Restored(Serialize([qa]), FirstRestoredIndex, stamps) == []
  {
  }

  /** Restoring from index 0 instead gives back every saved question and answer, in order. */
  lemma CorrectedRoundTrip(h: seq<QuestionAnswer>, stamps: nat -> Timestamp)
    ensures |Restored(Serialize(h), 0, stamps)| == |h|
    ensures Serialize(Restored(Serialize(h), 0, stamps)) == Serialize(h)
  {
    SerializeRestored(Serialize(h), 0, stamps);
  }

  /**
   * A restarted view-model over the array saved for `h` that then records one
   * exchange `qa` overwrites the store with `h` minus its first four records,
   * followed by `qa`: the first four records are gone from the store too, and
   * a saved history of four records or fewer is replaced by `qa` alone.
   */
  lemma RestartThenRecordForgetsFirstFour(h: seq<QuestionAnswer>, qa: QuestionAnswer, stamps: nat -> Timestamp)
    ensures Serialize(Restored(Serialize(h), FirstRestoredIndex, stamps) + [qa])
         == (if |h| <= 4 then [] else Serialize(h[4..])) + [Entry(qa.question, qa.answer)]
  {
    SerializeAppend(Restored(Serialize(h), FirstRestoredIndex, stamps), qa);
    SaveLoadRoundTrip(h, stamps);
  }
}
