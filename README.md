# Baking view-model: chat history and status, in Dafny

This project models the state kept by `BakingViewModel`, the view-model behind
the chat screen of the app:

- the in-memory chat history, an ordered list of question/answer/timestamp records;
- the preference file `baking_history`, whose single key `history_key` holds
  the history as a JSON array of `{question, answer}` objects;
- the status shown to the screen (`Initial`, `Loading`, `Success(text)`, `Error(text)`);
- the pause flag of text-to-speech playback.

`ChatHistory` (chat_history.dfy) holds the values: the records, the stored
form (`Serialize`), the restoring loop's result (`Restored`) and the lemmas
that relate saving and loading. `ViewModel` (view_model.dfy) holds the class
`BakingViewModel` with the three fields the source mutates (history, status,
pause flag) and the preference file it edits. Each of its methods
states the whole new state in terms of the old one and of `Serialize` and
`Restored`. `SaveHistory` and `LoadHistory` keep the source's loops.

The environment enters as parameters:

- the generative-model call is a `Reply`: text, null text, or an exception with its optional message;
- clock readings are `Timestamp` arguments. `LoadHistory` takes `stamps(i)`, the reading taken while restoring stored entry `i`;
- the preference file is a map from key to `Stored`. A missing key reads as null, and `EmptyString` is the empty string.

Work the source launches in the background is taken to finish, in program
order, before the next operation starts.

A saved history does not load back whole. The restoring loop starts at
stored index 4, so the first four saved records are never restored.
`SaveLoadRoundTrip` states exactly what comes back. `RestartThenRecordForgetsFirstFour`
shows that the next save also drops those four records from the store, and
that a saved history of four records or fewer is then replaced by the new
exchange alone. The
class keeps the loop as the code has it (`FirstRestoredIndex = 4`).

## Model

| member | source | states |
|---|---|---|
| ChatHistory.Serialize | app/src/main/java/com/example/myapplicationgemini/BakingViewModel.kt:114-124 | the saved array has exactly one entry per history record |
| ChatHistory.SerializeAt | app/src/main/java/com/example/myapplicationgemini/BakingViewModel.kt:117-123 | entry i of the saved array holds the question and answer of record i (no timestamp), so the array keeps history order |
| ChatHistory.Restored | app/src/main/java/com/example/myapplicationgemini/BakingViewModel.kt:133-138 | walking the stored entries from an index to the end yields one record per remaining entry, and nothing when the index is past the end |
| ChatHistory.RestoredAt | app/src/main/java/com/example/myapplicationgemini/BakingViewModel.kt:134-137 | restored record j is rebuilt from stored entry from+j, with that entry's question and answer and the clock reading taken for it |
| ChatHistory.SerializeDrop | app/src/main/java/com/example/myapplicationgemini/BakingViewModel.kt:114-124 | saving a history without its first k records gives the saved array without its first k entries |
| ChatHistory.StoredHistory | app/src/main/java/com/example/myapplicationgemini/BakingViewModel.kt:130-131 | the stored array is read only when history_key is present and does not hold the empty string; then it is exactly the array the key holds |
| ChatHistory.SerializeAppend | app/src/main/java/com/example/myapplicationgemini/BakingViewModel.kt:109-124 | saving after appending a record stores the previous array with exactly one entry added at its end |
| ChatHistory.SerializeRestored | app/src/main/java/com/example/myapplicationgemini/BakingViewModel.kt:114-138 | records restored from index k, saved again, give back exactly the stored entries from k on |
| ChatHistory.SaveLoadRoundTrip | app/src/main/java/com/example/myapplicationgemini/BakingViewModel.kt:114-138 | loading what was saved from n records yields max(0, n-4) records: the saved ones without the first four, questions and answers in order |
| ChatHistory.ReloadLosesRecords | app/src/main/java/com/example/myapplicationgemini/BakingViewModel.kt:133 | for every non-empty history, save then load gives back fewer records than were saved |
| ChatHistory.OneRecordReloadsEmpty | app/src/main/java/com/example/myapplicationgemini/BakingViewModel.kt:133 | a one-record history is saved as one entry and loads back as none |
| ChatHistory.CorrectedRoundTrip | app/src/main/java/com/example/myapplicationgemini/BakingViewModel.kt:114-138 | restoring from index 0 gives back every saved question and answer, in order |
| ChatHistory.RestartThenRecordForgetsFirstFour | app/src/main/java/com/example/myapplicationgemini/BakingViewModel.kt:109-138 | after a restart over a saved history of any length, the next recorded exchange stores that history without its first four records (nothing of it when it had four or fewer), followed by the new exchange |
| ViewModel.BakingViewModel.constructor | app/src/main/java/com/example/myapplicationgemini/BakingViewModel.kt:30-55 | a new view-model starts at Initial, unpaused, with an empty history, then loads: with nothing or an empty string stored it stays at Initial with no records, otherwise it holds the restored records and reports "Historial cargado" |
| ViewModel.BakingViewModel.SendPrompt | app/src/main/java/com/example/myapplicationgemini/BakingViewModel.kt:58-77 | the first status assigned is Loading; text reply: Success(text), the exchange appended and persisted; null text: stays Loading, history and store untouched; exception: Error(message or ""), history and store untouched |
| ViewModel.ErrorStatus | app/src/main/java/com/example/myapplicationgemini/BakingViewModel.kt:74 | an exception leaves an Error status carrying its localized message, or the empty string when that message is null |
| ViewModel.BakingViewModel.SpeakText | app/src/main/java/com/example/myapplicationgemini/BakingViewModel.kt:80-87 | speaks the text, flushing the queue, unless paused (then a 1 ms silence added to the queue); afterwards not paused; since the invariant keeps the flag false, it always speaks the text |
| ViewModel.BakingViewModel.StopText | app/src/main/java/com/example/myapplicationgemini/BakingViewModel.kt:90-93 | afterwards playback is not paused |
| ViewModel.BakingViewModel.AddToHistory | app/src/main/java/com/example/myapplicationgemini/BakingViewModel.kt:109-112 | the history is the old one plus exactly one record (question, answer, timestamp) at its end, and the store then mirrors the whole history |
| ViewModel.BakingViewModel.SaveHistory | app/src/main/java/com/example/myapplicationgemini/BakingViewModel.kt:114-126 | history_key holds one {question, answer} entry per record, in history order; other keys are unchanged |
| ViewModel.BakingViewModel.LoadHistory | app/src/main/java/com/example/myapplicationgemini/BakingViewModel.kt:128-142 | key absent or empty string: history and status unchanged; otherwise the entries from index 4 on are appended in order and the status is Success("Historial cargado"), even when none were appended |
| ViewModel.BakingViewModel.ClearHistory | app/src/main/java/com/example/myapplicationgemini/BakingViewModel.kt:144-148 | the history is empty, history_key is removed (so a later load changes nothing), the status is Success("Historial limpiado") |

## Left out

- The generative-model HTTP call (`generateContent`) is a cloud call. Only its outcome is modelled, as the `Reply` argument.
- The JSON text format and the SharedPreferences backend are library code. The stored string is modelled as the entry sequence it encodes, and malformed JSON is not modelled.
- The preference edits are committed with `apply()`, which writes asynchronously. The model applies them at once.
- `Dispatchers.IO` / `viewModelScope.launch` concurrency is not modelled. Launched work runs to completion in program order, so the race between the initial load and an early save is not captured.
- `onCleared`, the view-model's end of life, is not modelled. Besides stopping and shutting down the speech engine, its `super.onCleared()` cancels work still pending in `viewModelScope`, such as a launched save, which the assumption that launched work runs to completion does not capture.
- The status is a state flow. It ignores an assignment equal to its current value, and observers may miss quick successive updates. `SendPrompt` returns every assignment it makes (`statuses`), not what observers see: a second prompt sent while the status is already Loading publishes nothing new.
- `LocalDateTime.now()` is a clock read. Readings are arguments, and timestamps are never inspected.
- The TextToSpeech engine (`speak`, `playSilentUtterance`, `stop`, `shutdown`, `onInit`) is a platform service. Only the pause flag and what `SpeakText` hands to the engine are modelled: the text or the 1 ms silence, with its queue mode. The utterance id and the null parameter bundle are left out.
- The UiState declaration file is not part of this model. Its four cases are taken from how the view-model uses them.
- The Compose screens, navigation, location, QR scanner, sensors, torch and Wi-Fi check are layout or direct platform calls.
- `isValidUrl` is left out because it only wraps `Uri.parse(...).scheme`, whose code is not available.

## Findings

| source | as written | input that shows it | evidently intended | confidence | as-written member | corrected member |
|---|---|---|---|---|---|---|
| app/src/main/java/com/example/myapplicationgemini/BakingViewModel.kt:133 | the restoring loop starts at stored index 4, although saving writes every record from index 0 | a history of one record: saved as one entry, loaded back as none; with four records or fewer nothing comes back, and a restart followed by one prompt erases the first four from the store | restore from index 0, so that loading gives back every saved question and answer | medium, not executed | ChatHistory.ReloadLosesRecords | ChatHistory.CorrectedRoundTrip |
