# FileSystemMonitoring in Dafny

This project models the core of FileSystemMonitoring, a desktop tool that watches folders for file events. The tool writes each event, through a buffer, into an SQLite `events` table. It shows the events in a table that can be searched. It can also forward each event to a Telegram chat.

The model has one module per source file.

- `DbBuffer` (db_buffer.dfy) covers the write buffer.
  - The SQLite table is a sequence of rows, together with its AUTOINCREMENT counter.
  - `AddStep` and `FlushStep` say what one `add_event` or `flush` call does.
  - The `DBBuffer` class is proved against them.
  - Lemmas over whole runs of calls show three things: no event is lost or reordered, the batch arithmetic of the threshold, and that a failed insert keeps its backlog.
- `WatchdogHandlers` (watchdog_handlers.dfy) covers the event handler and the watcher thread.
  - `Normalize` describes which watchdog notifications become events, and with which fields.
  - `MyHandler.Dispatch` sends an accepted event into the buffer and returns the GUI callback.
  - `WatcherThread` records what `run` does as a trace of steps. The trace holds schedules, status messages, observer start/stop/join, and the final flush.
- `Telegram` (telegram_notifier.dfy) covers the notifier.
  - Stripping of the credentials.
  - The `enabled` gate.
  - The request URL.
  - The sends that `send_async` starts.
- `App` (main_app.dfy) covers the logic of `FileMonitorApp`.
  - The folder list and the list box that mirrors it.
  - The search filter and its TREE_MAX_ROWS cut-off.
  - The colour tags.
  - The notification text.
  - The guards of start/stop.
  - The ordered effects of closing the window.
- `Text` (text.dfy) holds the Python string operations used by the other modules:
  - `str.strip` with the whitespace set of `str.isspace`;
  - `lower`/`upper`;
  - the substring test `in`.
- `Wrappers` (wrappers.dfy) holds `Option`.

Inputs the program takes from the outside world are parameters of the model:
- the timestamp from `datetime.now`;
- whether the SQLite insert raises (`insertFails`);
- whether a root is a directory (`isDir`);
- whether `observer.start` raises (`startError`);
- the folder dialog's answer;
- the list box selection;
- what `load_folders` returned, and what `load_config` returned, key by key, with a missing key as `None` (`LoadedConfig`); the `.get` defaults are applied in the model.

Three behaviours of the code are modelled as written:
- Only the notifier's constructor strips the credentials. `on_event` copies the entry texts into the notifier unstripped, so a token of blanks counts as present (`RawCredentialsNotStripped`).
- In `run`'s `finally`, the "stopped" status is reported before the final flush, not after it.
- When `add_event` raises inside the handler, the GUI callback is not called. `Dispatch` returns `None` then.

## Model

| member | source | states |
|---|---|---|
| DbBuffer.InsertAll | db_buffer.py:57-61 | inserting a batch appends it as rows in order, with consecutive fresh AUTOINCREMENT ids; existing rows are kept unchanged and ids stay increasing |
| DbBuffer.FlushStep | db_buffer.py:49-63 | an empty buffer writes nothing; when the insert raises, buffer and table are unchanged; otherwise the whole buffer is written as one batch and the buffer is emptied; in every case no event is lost or reordered |
| DbBuffer.AddStep | db_buffer.py:39-47 | the event is appended; below the threshold nothing is written; at the threshold the whole buffer, new event included, is written and the buffer emptied, or on an insert error it is kept with the event; after a non-failing call fewer than buffer_size events stay buffered |
| DbBuffer.Step | db_buffer.py:39-63 | either call keeps every event: new rows followed by the buffer equal the old buffer followed by the added event |
| DbBuffer.RunOpsConserves | db_buffer.py:39-63 | over any sequence of add_event/flush calls, failed inserts included, the rows gained followed by the buffer are the old buffer followed by every added event in order; rows are never removed or rewritten |
| DbBuffer.AddEachShape | db_buffer.py:44-47 | N adds into an empty buffer without failures write batches of exactly buffer_size events; batches followed by the buffer are the added events |
| DbBuffer.ShapedStep | db_buffer.py:44-47 | one further add preserves that shape |
| DbBuffer.AddEachBatches | db_buffer.py:44-63 | N adds with threshold B write exactly N / B batches of B events, which are the first (N / B) * B events; the other N % B stay buffered and a final flush writes exactly them |
| DbBuffer.ThresholdScenario | db_buffer.py:46-47 | with threshold 2 and events A, B, C, the second add writes [A, B] and C stays buffered |
| DbBuffer.RetryWritesBacklog | db_buffer.py:53-63 | a failed flush keeps the backlog; while the adds in between stay below the threshold, the next successful flush writes the backlog plus the events added meanwhile as one batch |
| DbBuffer.DBBuffer.constructor | db_buffer.py:11-37 | the buffer starts empty; CREATE TABLE IF NOT EXISTS keeps an existing table and otherwise starts an empty one |
| DbBuffer.DBBuffer.AddEvent | db_buffer.py:39-47 | the buffer and table become what AddStep says; the conservation invariant over all events ever added is kept; `ok` is false exactly when the triggered insert raised |
| DbBuffer.DBBuffer.Flush | db_buffer.py:49-63 | the buffer and table become what FlushStep says; the conservation invariant is kept; `ok` is false exactly when the insert raised |
| WatchdogHandlers.KindNameInjective | watchdog_handlers.py:40-70 | the four handlers emit four different event-type names |
| WatchdogHandlers.ColorMapDistinct | watchdog_handlers.py:17 | every event type has a colour, the four colours differ, none is the "black" fallback, and the map has no other keys |
| WatchdogHandlers.ColorOf | main.py:212 | a row's colour is "black" exactly when its event type is not in COLOR_MAP, and otherwise one of the map's colours |
| WatchdogHandlers.Normalize | watchdog_handlers.py:27-70 | a notification becomes an event exactly when it is not about a directory, its path is non-empty and its type is in the filter; the event carries the handler's type name and the source path, and a destination only for a move |
| WatchdogHandlers.CallbackAgreesWithBuffer | watchdog_handlers.py:34-38 | the buffered event and the GUI callback of one notification carry the same timestamp, type and path; the callback's destination is the moved-to path for a move and "" otherwise |
| WatchdogHandlers.MyHandler.constructor | watchdog_handlers.py:19-25 | the handler keeps its filter and the shared buffer |
| WatchdogHandlers.MyHandler.Dispatch | watchdog_handlers.py:27-70 | a rejected notification leaves the buffer alone and calls nothing; an accepted one goes through add_event, and the callback gets the timestamp, type, path and destination-or-"" unless the insert raised |
| WatchdogHandlers.SetupPartitions | watchdog_handlers.py:96-100 | the setup loop handles each root once, in order: directories are scheduled, other roots reported as skipped |
| WatchdogHandlers.RunEndsWithCleanup | watchdog_handlers.py:94-111 | when the observer started, run ends with stop, join, the stopped status and the flush; when its start raised, run ends with the error status, stop and the join that raises on the never-started observer thread |
| WatchdogHandlers.SetupOnlyRoots | watchdog_handlers.py:96-100 | the setup loop reports no "active" or "stopped" status and flushes nothing |
| WatchdogHandlers.RunReports | watchdog_handlers.py:94-111 | "active", "stopped" and the final flush each occur in the trace exactly when the observer started |
| WatchdogHandlers.RunPartitions | watchdog_handlers.py:94-111 | over the whole run the scheduled roots are exactly the directories and the skipped ones exactly the other roots, in order |
| WatchdogHandlers.WatcherThread.constructor | watchdog_handlers.py:77-87 | the thread keeps its roots, filter and buffer, is not started and not asked to stop |
| WatchdogHandlers.WatcherThread.Start | watchdog_handlers.py:89-93 | starting a new thread begins run |
| WatchdogHandlers.WatcherThread.Stop | watchdog_handlers.py:113-117 | the stop flag is set |
| WatchdogHandlers.WatcherThread.RunSetup | watchdog_handlers.py:94-111 | one handler is created on the thread's filter and buffer; the trace is the setup steps followed by start and "active", with the observer watching exactly the directory roots; when the observer fails to start, the error status, stop and the raising join follow, the stop leaves nothing watched and the buffer is not flushed; nothing else of the thread changes |
| WatchdogHandlers.WatcherThread.RunCleanup | watchdog_handlers.py:103-111 | once stop was requested, the wait ends and the finally block runs: stop, which leaves nothing watched, join, the stopped status, then the buffer flushed as FlushStep says; the roots, handler and stop flag are unchanged |
| Telegram.SendUrl | telegram_notifier.py:36 | the URL is the API prefix, the token and "/sendMessage", and the token can be read back from it |
| Telegram.SendUrlInjective | telegram_notifier.py:36 | different tokens give different URLs |
| Telegram.EnabledAfterConstruction | telegram_notifier.py:9-20 | after construction, notifications are enabled exactly when neither credential is empty or all whitespace |
| Telegram.RawCredentialsNotStripped | telegram_notifier.py:16-20 | enabled() does not strip: any non-empty all-whitespace credentials assigned later count as present, although their stripped forms would not |
| Telegram.TelegramNotifier.constructor | telegram_notifier.py:9-14 | both credentials are stored stripped, and no send has started |
| Telegram.TelegramNotifier.SendAsync | telegram_notifier.py:22-29 | when disabled nothing is sent; otherwise exactly one request with the URL, chat id and text is started |
| Text.Strip | telegram_notifier.py:13-14 | the result is the input with all leading and trailing whitespace removed: it is a slice of the input, the removed parts are whitespace, and it is empty exactly for an all-whitespace input, else it starts and ends with non-whitespace |
| Text.Lower | main.py:203 | the lower-cased text has the same length, holds no capital letter, and agrees with the input character by character up to case |
| Text.LowerIdempotent | main.py:203 | lower-casing twice is lower-casing once, so the lower-cased search and fields compare stably |
| Text.Upper | main.py:196 | the upper-cased text has the same length, holds no small letter, and agrees with the input character by character up to case |
| Text.ContainsAt | main.py:209 | a needle occurring at some position is found by the substring test |
| Text.ContainsFindsPosition | main.py:209 | when the substring test succeeds the needle occurs at some position |
| App.VisibleAppend | main.py:207-210 | filtering distributes over concatenation, so the table keeps the order of `_all_events` |
| App.VisibleMembers | main.py:207-210 | a row is visible exactly when it is one of the events and the search is empty or some field contains it, lower-cased |
| App.VisibleEmptySearch | main.py:209 | with an empty search every event is visible |
| App.VisibleCutOff | main.py:215-217 | stopping the scan once TREE_MAX_ROWS rows passed yields exactly the first TREE_MAX_ROWS passing rows |
| App.ShownRows | main.py:199-217 | the table shows at most TREE_MAX_ROWS rows: the first passing rows, in order, all passing rows when fewer pass, each one of the events and coloured by COLOR_MAP |
| App.ShownEmptySearch | main.py:203-217 | with an empty search the table shows exactly the first min(n, 1000) events |
| App.WithFolder | main.py:139-142 | a non-empty folder not yet listed is appended; otherwise the list is unchanged; a duplicate-free list stays duplicate-free |
| App.RemoveFirst | main.py:151 | `list.remove` shortens the list by one |
| App.RemoveFirstValues | main.py:151 | `list.remove` takes exactly one occurrence of the value out |
| App.DeleteAt | main.py:152 | deleting a list box entry shortens it by one |
| App.DeleteAtValues | main.py:152 | deleting a list box entry takes exactly its value out |
| App.RemoveFirstIsDeleteAt | main.py:150-152 | removing the value of entry i deletes entry i when no earlier entry has that value |
| App.RemoveSelectedKeepsValues | main.py:148-152 | for any lists holding the same folders, duplicates included, remove_folder leaves them holding the same folders, and the list box loses one entry per selected index |
| App.RemoveSelectedRemovesValues | main.py:148-152 | the list box loses exactly the selected entries' values: what stays plus what was selected is what was there |
| App.RemoveSelectedListbox | main.py:148-152 | for any folder list, duplicates included, the list box loses exactly the selected entries and keeps the others in their order |
| App.RemoveSelectedExact | main.py:148-152 | with a duplicate-free folder list shown in the list box, remove_folder removes exactly the selected entries from both and keeps the rest in order |
| App.DuplicateFoldersDrift | main.py:148-152 | with a duplicated folder the two lists end up in different orders: ["a","b","a"] with the last entry selected gives paths ["b","a"] and list box ["a","b"] |
| App.NotificationText | main.py:196 | the text starts with "[ts] TYPE", a newline and the path; it continues with a newline, "→ " and the destination only when there is one |
| App.NotificationMentionsDest | main.py:196 | the text is longer than the header exactly when there is a destination |
| App.FilterOf | main.py:171 | the filter passed to the thread names exactly the ticked kinds and nothing else |
| App.CheckedFrom | main.py:82-84 | a checkbox starts ticked exactly when its kind is in the configured event list |
| App.InitialChecked | main.py:44 | without an 'events' key every kind starts ticked; with one, exactly the kinds it names |
| App.MissingVsEmptyEvents | main.py:44 | a missing event list ticks all four kinds, an empty one ticks none |
| App.SavedConfig | config_manager.py:35-42 | save_config writes the folders, the entry texts as typed, and an event list naming exactly the ticked kinds, each once |
| App.TickedNamesExact | config_manager.py:37 | the saved event list names exactly the ticked kinds, each once |
| App.ConfigEventsRoundTrip | config_manager.py:37 | loading the saved event list at the next start ticks exactly the kinds that were ticked at saving |
| App.FileMonitorApp.constructor | main.py:35-48 | the saved folders if any, else the configured ones ([] without a 'paths' key), fill both the list and the list box; the notifier gets the stripped credentials ('' for a missing key), the entries the raw ones; the checkboxes tick every kind without an 'events' key and otherwise the listed kinds; "send" starts ticked exactly when the notifier is enabled |
| App.FileMonitorApp.AddFolder | main.py:135-142 | the list becomes WithFolder of it, and the list box gets the same folder appended |
| App.FileMonitorApp.RemoveFolder | main.py:144-152 | both lists become what processing the selection from last to first gives, and still hold the same folders |
| App.FileMonitorApp.ClearFolders | main.py:154-159 | both lists become empty |
| App.FileMonitorApp.ApplyFilter | main.py:199-217 | the table becomes exactly the shown rows for the current search |
| App.FileMonitorApp.SetSearch | main.py:65 | typing a search stores it and refreshes the table for it |
| App.FileMonitorApp.OnEvent | main.py:187-197 | the event is appended and the table refreshed; with "send" ticked the entries are copied into the notifier unstripped and, when both are non-empty, one request with the rendered text is started; otherwise the notifier is untouched |
| App.FileMonitorApp.StartMonitoring | main.py:161-175 | with a live thread, or without folders, only the matching dialog is shown; otherwise a new running thread is started on the folders with exactly the ticked kinds, with an empty trace, no handler yet and nothing watched |
| App.FileMonitorApp.StopMonitoring | main.py:177-185 | a running thread is asked to stop, and nothing else of it changes; the app forgets it |
| App.FileMonitorApp.ClearTable | main.py:219-225 | the stored events and the table become empty |
| App.FileMonitorApp.OnClose | main.py:265-275 | the thread is asked to stop first, and nothing else of it changes, then the buffer is flushed; if the flush raised nothing else happens; otherwise the folders and the configuration are saved and the window is destroyed, in that order |

## Left out

- The SQLite connection, its files and SQL text. The table is a value, and a raising insert is the input `insertFails`. A failing `_init_db` (connect or CREATE TABLE raising) is not modelled.
- The lock in `DBBuffer` and all concurrency.
  - Calls are modelled one at a time.
  - The model does not cover the unlocked `flush` calls in `run` (watchdog_handlers.py:111) and `on_close` (main.py:272) racing with `add_event`.
  - It does not cover `on_event` running on the observer's dispatch thread rather than the GUI thread.
- WatchdogHandlers.WatcherThread.RunCleanup: the `time.sleep(0.2)` polling loop is not modelled. Its only effect, that cleanup starts after `stop()`, is the method's precondition.
- WatchdogHandlers.WatcherThread.RunSetup: only `observer.start` is modelled as able to raise. An exception inside `schedule`, `os.path.isdir` or a status callback is not.
- WatchdogHandlers.WatcherThread.RunSetup: for a failed start, the model relies on two library behaviours that are not part of this model. watchdog's observer starts its own thread only after its emitters, so that thread never started. `Thread.join` on a thread that never started raises `RuntimeError`. So the `finally` block stops at the join, and `run` ends with that exception.
- The texts of the status messages (the emoji and Ukrainian wording). A status is a `Report` step naming which message it is, with the skipped path or the error.
- The module-level `db_buffer` instance (db_buffer.py:65) and `DB_BUFFER_SIZE = 50`. The buffer size is a constructor parameter, and every component gets the buffer it shares.
- The watchdog `Observer` itself. Which notifications it produces, with which paths, and the recursion into subfolders are inputs (`Notification`, `isDir`).
- WatchdogHandlers.MyHandler.Dispatch: an exception from `add_event` inside `_emit_event` (watchdog_handlers.py:35) also leaves watchdog's dispatch loop, which catches only an empty queue. After that no later notification of the session reaches the buffer or the GUI. The model still allows further `Dispatch` calls.
- WatchdogHandlers.WatcherThread.RunCleanup: that `observer.stop()` unschedules every watch is watchdog library behaviour that is not part of this model. The model states it as `watches` becoming empty at the stop step.
- `datetime.now().strftime(...)`. The timestamp is an input.
- The `logging` calls (the `msg` line in `_emit_event`, the Telegram error log) and `logging.basicConfig`.
- The HTTP send in `_send`: urllib, `urlencode`, the 10-second timeout, and the logged failure. The model records the request that `send_async` starts. Its URL and chat id are taken from the token and chat id at the call. The source reads both `self.token` and `self.chat_id` when the background thread runs (telegram_notifier.py:36-37), so it could see later values.
- Text.Lower: only ASCII letters are mapped, because full Unicode case mapping of `str.lower` is not modelled.
- Text.Upper: only ASCII letters are mapped, for the same reason.
- `sort_tree`. It reorders widget rows and never changes `_all_events`.
- `export_csv`. It is file I/O over `_all_events`.
- Tkinter itself: window building, button enable/disable states, and the `status_var` text.
- `append_status` and `root.after`. Statuses appear as `Report` steps in the thread's trace.
- `config_manager`: the YAML reading and writing. Loading gives the constructor's parameters; saving is an effect, the `SaveFolders`/`SaveConfig` entry that records what would be written.
- Sharing of the `paths` list object between the app and a running thread (main.py:172). The thread gets a copy of the sequence, so a later edit of the folder list is not seen by the model's thread.
- App.FileMonitorApp.StopMonitoring: its `StopThread` effect marks the request only. The thread's end is `WatcherThread.RunCleanup`, which the app does not call.
