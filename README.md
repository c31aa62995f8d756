# Blocchy editor core in Dafny

Blocchy is a desktop Markdown notebook. A Python backend (`main.py`) keeps the notes as `.md`
files in one directory. It answers the page's API calls: list, read, save and delete notes,
build the wiki-link graph, and keep the window/UI state. A single-page front end
(`static/script.js`) edits one note at a time in a textarea. This model covers:

- the front end's editing engine: bold and italic wrapping, toggling bulleted and numbered
  lists over whole lines, link insertion through a two-field form, and continuing or ending a
  list when Enter is pressed;
- the command palette with wrap-around arrow navigation;
- the two debounced pipelines: preview render after 150 ms and save after 1500 ms;
- the note session: which note is open, whether it is new, the title field, the dialogs, the
  sidebar view;
- the keydown dispatcher and its order of precedence: delete dialog, link form, palette, list
  continuation, Ctrl shortcuts;
- the backend's storage API and its config merging.

Modules, one per file:

- `Text` (text.dfy): the JavaScript and Python string primitives the code relies on. These
  are `trim`, `indexOf`, `lastIndexOf`, `split`/`join`, JavaScript's first-occurrence
  `replace`, Python's every-occurrence `replace`, and decimal printing and parsing.
- `ListMarkers` (list_markers.dfy): the list-marker regular expressions, as prefix scanners.
  It also holds the two line-block transforms of the list toggles, and the parsed `ListItem`
  of the Enter handler.
- `Formatting` (formatting.dfy): the textarea as a `Buffer` (value and selection), and
  `setRangeText` and `execCommand('insertText')` on it. It also holds `formatText`, the Enter
  continuation and the link markup. The class `Textarea` is the mutable DOM element.
- `Palette` (palette.dfy): the selection arithmetic and the class `CommandPalette`.
- `Debounce` (debounce.dfy): `debounce(func, delay)` as a timer state machine over explicit
  time. The class `Debouncer` is the closure.
- `Storage` (storage.dfy): `get_notes`, `get_note_content`, `save_note`, `delete_note` and
  `get_graph_data` over a directory modelled as a map from file name to content. It also holds
  `load_config`, and `sync_state` in the class `ConfigStore`.
- `Editor` (editor.dfy): the page's `state` and DOM flags as a `Session` value with a pure
  transition function `Apply`. The class `Editor` owns the textarea, the palette and the two
  debouncers, and has one method per event handler. Calls to the backend are returned as
  `Request` values; their answers come back through separate methods such as
  `NoteContentArrived`, `SaveDone`, `NotesArrived` and `DeleteDone`.

Where the design description and the code disagree, the model follows the code:

- Ctrl+S does not cancel a pending debounced save. The handler calls
  `clearTimeout(state.autosaveTimeout)`, but nothing ever assigns that field. The timer lives
  inside the `debounce` closure. `Editor.Editor.RunShortcut` leaves `saveTimer` unchanged.
- The palette has no filtering. Opening it lists every note name, and closing it only
  clears the input field.
- Ending a list with Enter on an empty item does not suppress the browser's own line break.
  The code removes the empty marker without calling `preventDefault`, so `Enter` reports
  `prevented == false` there (`Formatting.EnterEndsList`).
- The save-gating rule has two more cases:
  - with an empty title, the save falls back to the open note's name;
  - the file name loses only its first `.md` (JavaScript `replace` with a string pattern).
- A list toggle tests every line of the block, blank lines included. So a block with a blank
  line in it is never "already a list", and toggling it applies markers rather than removing
  them.
- List continuation depends on whether the editor area is shown, not on keyboard focus.
- The Enter regexes allow no white space, or several characters of it, after the marker
  (`\s*`, not one space). So `**bold`, `3.14` and `-   x` all continue as list items, and
  Enter at the end of `3.14` inserts a line starting `4. ` (`ListMarkers.ParseItemComplete`,
  `ListMarkers.NoSpaceItems`).
- A failed read is not an error on the page. `get_note_content` returns an error dict, and
  the page opens the note with the text `[object Object]`.
- A delete's reply status is ignored. When the backend answers, even with "file not found",
  the page goes back to the welcome screen. The dialog alone closes only when the call itself
  rejects.
- `showWelcomeScreen` clears the open note but not the title field or the "new note" flag.
  So a save after deleting a note is sent again under the deleted note's title, and writes
  the file back (`Editor.SaveAfterDelete`).

## Model

| member | source | states |
|---|---|---|
| Text.TrimEmpty | static/script.js:379-382 | `trim()` gives the empty string exactly when every character is whitespace |
| Text.TrimShape | static/script.js:340-341 | `trim()` returns the input minus its leading and trailing whitespace, and the result starts and ends with a non-space |
| Text.IndexOf | static/script.js:357-358 | `indexOf` returns -1 or a position at or after `from` holding the character |
| Text.IndexOfFirst | static/script.js:357-358 | no occurrence lies between `from` and the returned position (or anywhere after `from` when -1) |
| Text.IndexOfIs | static/script.js:357-358 | the first occurrence at or after `from` is what `indexOf` returns |
| Text.LastIndexOf | static/script.js:356 | `lastIndexOf(c, from)` returns -1 or a position holding `c` not after `from`, where a negative `from` is treated as 0 |
| Text.LastIndexOfLast | static/script.js:356 | nothing between the returned position and `from` is the character |
| Text.JoinSplit | static/script.js:360 | joining the pieces of a split with the separator rebuilds the string |
| Text.SplitJoin | static/script.js:377 | splitting a join of separator-free pieces gives the pieces back |
| Text.SplitCount | static/script.js:360 | a split has one more piece than the string has separators |
| Text.LastPart | static/script.js:487 | `split('\n').pop()` is a suffix of the string, preceded by a separator unless it is the whole string |
| Text.LastPartNoSep | static/script.js:487 | the last piece of a split holds no separator |
| Text.ReplaceAbsent | static/script.js:172 | `replace('.md', '')` leaves a name without `.md` unchanged, in both the JavaScript and the Python form |
| Text.ReplaceRemovesOccurrence | static/script.js:172 | with `k` the first occurrence of the pattern, JavaScript `replace` gives the text before `k`, then `rep`, then the text after the occurrence unchanged; Python `replace` gives the same with the text after the occurrence replaced in turn |
| Text.FirstOccurrenceSkips | static/script.js:172 | the first occurrence, stated as "no earlier position starts the pattern", is reached by skipping non-matching positions one at a time |
| Text.ReplaceFirstKeepsSecond | static/script.js:172 | for `a.md.md`, JavaScript `replace('.md', '')` gives `a.md` while Python's gives `a` |
| Text.ShowDecimal | static/script.js:496 | printing a number gives digits only, with no leading zero unless the number is 0 |
| Text.ParseShow | static/script.js:496 | `parseInt` of a printed number gives the number back |
| ListMarkers.ParseItemSound | static/script.js:488-489 | a match of the Enter regexes is a well-formed item whose indent and marker prefix the line and whose content ends it |
| ListMarkers.ParseItemLine | static/script.js:488-489 | every well-formed item, written out, is matched back to itself |
| ListMarkers.ParseItemComplete | static/script.js:488-489 | any line that a well-formed item spans, with any white space (none included) after the marker, is matched to exactly that item; with ParseItemSound, a line parses to an item if and only if the item spans it |
| ListMarkers.NoSpaceItems | static/script.js:488-489 | `3.14` parses as item 3 with text `14`, and `**bold` as a `*` bullet with text `*bold` |
| ListMarkers.ToggleBullets | static/script.js:374-383 | the bullet toggle maps each line of the block to one line |
| ListMarkers.ToggleNumbers | static/script.js:387-396 | the numbering toggle maps each line of the block to one line |
| ListMarkers.BulletLineRoundTrip | static/script.js:377-381 | a plain line gets `* `, is then a bullet item, and stripping the bullet restores it |
| ListMarkers.NumberedLineRoundTrip | static/script.js:390-394 | a plain line gets `i+1. `, is then a numbered item, and stripping the number restores it |
| ListMarkers.ToggleBulletsRoundTrip | static/script.js:374-383 | on plain lines the bullet toggle prefixes `* ` to each, and toggling twice restores the block |
| ListMarkers.ToggleNumbersRoundTrip | static/script.js:387-396 | on plain lines the numbering toggle numbers them 1, 2, … in order, and toggling twice restores the block |
| ListMarkers.StripMarkerOfItem | static/script.js:380 | stripping any marker from an item leaves its content |
| ListMarkers.RemarkItem | static/script.js:379-394 | remarking an item of either kind replaces its marker: `* content` or `i+1. content` |
| ListMarkers.RemarkItems | static/script.js:379-394 | applying either list style to a block of items replaces every marker with the new one |
| ListMarkers.BulletedNotNumbered | static/script.js:388 | a bullet item never passes the numbered-list test |
| ListMarkers.NumberedNotBulleted | static/script.js:375 | a numbered item never passes the bullet-list test |
| ListMarkers.NumbersReplaceMarkers | static/script.js:387-396 | numbering a block of bullet (or mixed) items yields `1. `, `2. `, … with no bullet left |
| ListMarkers.BulletsReplaceMarkers | static/script.js:374-383 | bulleting a block of numbered (or mixed) items yields `* ` lines with no number left |
| ListMarkers.ApplyEmptiesBlankLines | static/script.js:381 | when markers are applied, a blank line of the block becomes empty and gets no marker |
| Formatting.SetRange | static/script.js:365 | `setRangeText` keeps the buffer valid and changes its length by the inserted minus the removed text |
| Formatting.SetRangeParts | static/script.js:365 | `setRangeText` keeps the text before and after the range, puts the new text in between, and selects it (`select`) or collapses after it (`end`) |
| Formatting.LineStart | static/script.js:356 | the block start never passes the end of the text |
| Formatting.LineEnd | static/script.js:357-358 | the block end lies between the selection end and the end of the text |
| Formatting.LineBlock | static/script.js:356-358 | the line bounds start after a line break (or at 0) and end at one (or at the end), with no break between them and the selection. They cross only when the cursor is at 0 on a leading break, which makes `setRangeText` throw |
| Formatting.ListEditBlock | static/script.js:356-398 | a list command replaces exactly the lines the selection touches, selects the result, and maps the block's lines one to one through the toggle; it fails exactly in the crossing case |
| Formatting.WrapSelection | static/script.js:363-370 | bold/italic put the marks around the selection and select the wrapped text, leaving the rest unchanged |
| Formatting.WrapCounts | static/script.js:363-370 | wrapping adds every character of the mark twice and nothing else |
| Formatting.UnwrapWrap | static/script.js:363-370 | removing the marks from the selection undoes a wrap |
| Formatting.BulletsUndo | static/script.js:374-383 | on plain lines the bullet rewrite adds `* ` to every line, and rewriting twice restores the block |
| Formatting.NumbersUndo | static/script.js:387-396 | on plain lines the numbered rewrite numbers every line, and rewriting twice restores the block |
| Formatting.RewriteTwice | static/script.js:374-398 | a block rewrite whose function is its own inverse, applied twice, restores the text and selects the original lines |
| Formatting.BulletsTwice | static/script.js:374-385 | the unordered-list command on plain lines bullets them, and pressing it again restores the text |
| Formatting.NumbersTwice | static/script.js:387-398 | the ordered-list command on plain lines numbers them, and pressing it again restores the text |
| Formatting.Enter | static/script.js:484-511 | Enter is handled by the list code exactly when the text before the cursor on its line is a list item; otherwise the buffer is untouched and the default is not prevented |
| Formatting.SuccessorNext | static/script.js:496 | the continuation marker keeps the indent and kind, keeps the bullet character, and numbers one more |
| Formatting.CurrentLineBounds | static/script.js:487 | the current line is the text from the last break before the cursor up to the cursor |
| Formatting.EnterContinues | static/script.js:490-508 | on an item with content, Enter prevents the default and inserts a break and the next marker at the cursor; the new line parses as the successor item |
| Formatting.EnterEndsList | static/script.js:492-504 | on an empty item, Enter removes the marker text before the cursor, collapses the cursor there, and does not prevent the default |
| Formatting.LinkMarkup | static/script.js:340-343 | link markup, when produced, is at least four characters longer than the trimmed URL |
| Formatting.LinkParts | static/script.js:343 | a parsed link's text and URL account for all of it but the four delimiter characters |
| Formatting.LinkPartsSound | static/script.js:343 | a parsed link is `[text](url)` with no `]` in the text |
| Formatting.LinkRoundTrip | static/script.js:340-343 | when the chosen text (the trimmed text, or the URL when the text is blank) holds no `]`, the markup parses back to that text and the trimmed URL |
| Formatting.LinkNeedsUrl | static/script.js:340-342 | a link is produced and inserted exactly when the URL is not blank |
| Formatting.LinkReplacesSelection | static/script.js:339-347 | the link command only opens the form, seeded with the selection; confirming it replaces the selection with the markup and puts the cursor after it |
| Formatting.InsertLink | static/script.js:346 | inserting a link keeps the buffer valid |
| Formatting.Assigned | static/script.js:143 | assigning the current value changes nothing; assigning another value replaces the text and puts the cursor at its end |
| Formatting.Textarea.SetValue | static/script.js:143 | the textarea after an assignment to `value` is `Assigned` of the one before |
| Formatting.Textarea.SetSelection | static/script.js:354-355 | the user moving the selection leaves the text as it is |
| Formatting.Textarea.SetRangeText | static/script.js:365 | the element's new state is `setRangeText` of its old one |
| Formatting.Textarea.ExecInsertText | static/script.js:346 | the element's new state is the old one with the selection replaced by the text |
| Formatting.Textarea.FormatText | static/script.js:352-405 | the element changes exactly when the command edits, to the edited buffer |
| Formatting.Textarea.ListText | static/script.js:374-398 | a list command on the element is the pure list edit of its state |
| Formatting.Textarea.PressEnter | static/script.js:484-511 | the element's new state and the prevented flag are those of the Enter handler |
| Palette.Next | static/script.js:309 | ArrowDown moves to the next item, or from the last to the first |
| Palette.Prev | static/script.js:314 | ArrowUp moves to the previous item, or from the first to the last |
| Palette.UpUndoesDown | static/script.js:307-316 | ArrowUp after ArrowDown, and ArrowDown after ArrowUp, return to the same item |
| Palette.Downs | static/script.js:307-311 | any number of ArrowDown presses stays within the list |
| Palette.DownsAdd | static/script.js:307-311 | `a` presses then `b` presses are `a + b` presses |
| Palette.DownsBelowEnd | static/script.js:307-311 | before the end of the list each press moves down one |
| Palette.FullCircle | static/script.js:307-311 | as many ArrowDown presses as there are items bring the selection back |
| Palette.CommandPalette.Open | static/script.js:278-300 | opening lists the notes as they are now with the first selected |
| Palette.CommandPalette.Close | static/script.js:284-287 | closing hides the overlay and keeps the list |
| Palette.CommandPalette.Navigate | static/script.js:302-323 | with no items nothing happens; the arrows move the selection round the list; Enter returns the selected name and closes |
| Debounce.Call | static/script.js:66-68 | a call drops whatever was pending and arms the timer with its own arguments, due exactly `delay` after the call |
| Debounce.Tick | static/script.js:68 | the timer fires exactly when it is armed and due, with the last call's arguments, and is then idle |
| Debounce.Step | static/script.js:64-70 | one event runs the function at most once |
| Debounce.AtMostOncePerCall | static/script.js:64-70 | over any sequence of events, runs plus what is still pending never exceed calls plus what was pending |
| Debounce.Ticks | static/script.js:68 | turns of the event loop are one tick event per given time, in order |
| Debounce.TicksIdle | static/script.js:68 | turns of the event loop before an armed timer's deadline run nothing and leave the timer as it is |
| Debounce.TypingKeepsLast | static/script.js:64-70 | calls interleaved with turns of the event loop, each turn before the deadline then pending, run nothing and leave only the last call pending, due `delay` after it |
| Debounce.WithinDelayKeepsLast | static/script.js:64-70 | the same when each call comes less than `delay` after the one before and the event loop turns only between calls and before the last deadline |
| Debounce.TypingRunsOnce | static/script.js:64-70 | such typing followed by two turns of the event loop at or after the last deadline runs the function exactly once, with the last call's arguments |
| Debounce.RunAppend | static/script.js:64-70 | running two event sequences back to back is running their concatenation |
| Debounce.Debouncer.constructor | static/script.js:65 | a fresh closure has no pending call |
| Debounce.Debouncer.Invoke | static/script.js:66-68 | calling the debounced function replaces whatever was pending |
| Debounce.Debouncer.Fire | static/script.js:68 | the event loop runs the pending call when it is due |
| Storage.NoteKey | main.py:74 | the file name always ends in `.md`, added only when missing |
| Storage.StripAddedMd | main.py:87 | a name without `.md` survives having `.md` added and stripped |
| Storage.LeTotal | main.py:68 | Python's string order is total |
| Storage.Insert | main.py:68 | insertion adds exactly one copy of the element |
| Storage.InsertSorted | main.py:68 | inserting into a sorted list keeps it sorted |
| Storage.SortSpec | main.py:68 | `sorted` returns an ordered permutation of its input |
| Storage.NoteNamesIn | main.py:67-68 | a name is listed exactly when some `.md` file strips to it |
| Storage.GetNotesSpec | main.py:65-70 | the note list is sorted and lists exactly the stripped `.md` files, as often as they occur; a failed listing gives the empty list |
| Storage.ReadNote | main.py:72-77 | a read succeeds exactly when the `.md` file exists, and returns its content |
| Storage.SaveNote | main.py:79-88 | a save fails exactly for names with `..`, `/` or `\`, and then writes nothing; otherwise it writes the content under the `.md` name, answers with every `.md` removed, and a read gives the content back |
| Storage.SaveThenRead | main.py:79-88 | saving a plain name answers with that name, reading it back gives the content, and no other file changes |
| Storage.DeleteNote | main.py:90-99 | a delete succeeds exactly when the file exists, and the note is then gone; otherwise nothing changes |
| Storage.CloseAt | main.py:104 | the non-greedy `]]` search stops at a `]]` with no line break before it |
| Storage.LinksOccur | main.py:104-108 | every wiki link found occurs in the text as `[[link]]` and holds no line break |
| Storage.WikiLinkOfName | main.py:104-108 | `[[name]]` yields exactly the link `name` |
| Storage.DedupSpec | main.py:111 | the edge list holds no duplicates and exactly the candidate edges |
| Storage.NoteEdgesIn | main.py:108-111 | a note's edges go to the notes it links, except itself |
| Storage.CandidatesIn | main.py:105-111 | an edge is a candidate exactly when its source is a readable note linking a different existing note |
| Storage.GetGraphData | main.py:101-112 | the nodes are the note list, and the edges are the deduplicated link edges in order |
| Storage.CollectEdges | main.py:105-111 | the outer loop leaves, note after note, the deduplicated edges of every note so far |
| Storage.AddLinkEdges | main.py:108-111 | the inner loop appends each new link edge once |
| Storage.LinkStep | main.py:109-111 | one link adds its edge exactly when it names another note and is not yet there |
| Storage.GraphEdges | main.py:101-112 | `a → b` is in the graph exactly when both are notes, they differ, and `a`'s text links `[[b]]` |
| Storage.SetDefault | main.py:25-26 | `setdefault` adds the key with an empty dict only if absent, and keeps everything else |
| Storage.Update | main.py:49 | `update` takes the incoming values and keeps the others |
| Storage.MergeSection | main.py:48-51 | `setdefault` then `update` runs to the end exactly when the stored section is a dict and the sent one is a dict or an empty list or string; where `update` raises, the state is the one `setdefault` left, with the section added |
| Storage.MergeSectionKeeps | main.py:48-51 | merging a section, even one that raises, keeps every top-level key, adds at most that section and changes no other key |
| Storage.MergeSectionSpec | main.py:48-51 | merging a sent dict into a dict section keeps the other sections, takes the sent fields and keeps the unsent ones |
| Storage.ConfigStore.LoadConfig | main.py:19-32 | a missing or malformed file gives empty `window` and `ui`; a parsed object gains them if missing; the state is what is returned |
| Storage.ConfigStore.SyncState | main.py:44-51 | the new state is `window` merged and then `ui` merged; where a merge raises the sync stops, and what was done stays, including the section `setdefault` added |
| Storage.SyncNeverLoses | main.py:44-51 | any sync, even one that raises, keeps every top-level key, adds at most `window` and `ui`, and changes no other key |
| Storage.SyncKeepsOthers | main.py:44-51 | syncing keeps every other key and only adds `window`/`ui` when they were sent |
| Storage.SyncSection | main.py:44-51 | after a sync a sent section holds every sent field and every field it had that was not sent |
| Editor.Apply | static/script.js:93-241 | session transitions keep "a new note has no current note". Only welcome, open, create and a successful save change the note. Only create sets "new". The delete dialog opens only for a deletable note. A locked title changes only through open, create or save |
| Editor.SaveRequest | static/script.js:169-173 | a save is sent with a non-empty file name and the current text, never for an untitled new note nor with neither title nor note |
| Editor.SavesUnderTitle | static/script.js:172 | a title without `.md` is the file name sent |
| Editor.SavesUnderOpenNote | static/script.js:172 | with an empty title the open note's name is sent |
| Editor.NewNoteFlow | static/script.js:155-184 | a new note is not saved until titled, then is saved under its title, which the success locks and makes current |
| Editor.ReopenedNoteSaves | static/script.js:134-184 | a reopened note saves under its name, the backend answers with that name, no list refresh is needed and the session is unchanged |
| Editor.DeleteNeedsNote | static/script.js:190-191 | the delete dialog opens exactly for an open, saved, non-empty note; otherwise nothing changes |
| Editor.SaveAfterDelete | static/script.js:200-205 | after deleting the open note, a save still sends the deleted note's title and content |
| Editor.LayerOf | static/script.js:468-513 | exactly one layer, by precedence: the delete dialog if open; else the link form if open; else the palette if shown; else list continuation exactly when the key is Enter, the editor is shown and the caret line is a list item; else the shortcuts exactly when Ctrl is held |
| Editor.ShortcutIgnoresCase | static/script.js:514 | a shortcut letter works in either case |
| Editor.KelvinSignIsLink | static/script.js:514 | the Kelvin sign U+212A lower-cases to `k`, so Ctrl with it opens the link form as Ctrl+K does |
| Editor.Editor.constructor | static/script.js:76-91 | the page starts on the welcome screen with the notes loaded, an empty textarea and idle timers |
| Editor.Editor.ShowWelcomeScreen | static/script.js:93-98 | the welcome transition, with the text and preview kept |
| Editor.Editor.OpenNote | static/script.js:134-137 | the content is requested unless that note is already open and shown |
| Editor.Editor.NoteContentArrived | static/script.js:136-153 | a rejected read changes nothing; otherwise the note opens, and the text (or `[object Object]`) is assigned to the textarea, with the cursor moving only if the text differs, and shown in the preview |
| Editor.Editor.CreateNewNote | static/script.js:155-167 | the create transition, with `# Nuova Nota` assigned to the textarea and shown in the preview |
| Editor.Editor.SaveCurrentNote | static/script.js:169-175 | the request sent is the gated save of the current title and text |
| Editor.Editor.SaveDone | static/script.js:176-186 | a success makes the answered name current and asks for the list exactly when the note was new or renamed; a failure changes nothing |
| Editor.Editor.NotesArrived | static/script.js:105-126 | a list answer replaces the known notes; a failure keeps them |
| Editor.Editor.ShowDeleteConfirmation | static/script.js:190-196 | the ask-delete transition |
| Editor.Editor.HideDeleteConfirmation | static/script.js:198 | the close-dialog transition |
| Editor.Editor.PerformDelete | static/script.js:200-202 | the delete request names the current note, even when there is none |
| Editor.Editor.DeleteDone | static/script.js:202-210 | any answer closes the dialog, shows the welcome screen and reloads the list; a rejection only closes the dialog |
| Editor.Editor.ShowLinkModal | static/script.js:325-331 | the link form opens seeded with the selected text |
| Editor.Editor.HideLinkModal | static/script.js:333-337 | the link form closes and its fields are cleared |
| Editor.Editor.TypeLinkFields | static/script.js:339-341 | typing into the open form sets its fields |
| Editor.Editor.InsertLinkFromModal | static/script.js:339-350 | a blank URL changes nothing; otherwise the link replaces the selection, the form closes and both debouncers are re-armed |
| Editor.Editor.FormatText | static/script.js:352-405 | the textarea takes the command's result; only an edit re-arms both debouncers; the link command only opens the form |
| Editor.Editor.TextInput | static/script.js:447-450 | typing replaces the selection and re-arms both debouncers |
| Editor.Editor.TitleInput | static/script.js:451 | typing a title re-arms the save unless the title is locked |
| Editor.Editor.SwitchSidebarView | static/script.js:225-241 | the view changes, and the graph view asks for the graph data |
| Editor.Editor.EventLoopTurn | static/script.js:128-188 | due timers fire: the save sends the gated save of the text at that time, the render copies the text to the preview |
| Editor.Editor.KeyDown | static/script.js:468-526 | the layer is chosen by precedence, and in each layer the key has exactly its handler's effect (`LinkKeyEffect`, `PaletteKeyEffect`, `ShortcutEffect`) while the parts of the page that handler does not touch (palette, timers, preview) stay as they were; list continuation re-arms only the render |
| Editor.Editor.DeleteDialogKey | static/script.js:469-473 | Escape closes the dialog, Enter asks for the delete, both prevent the default |
| Editor.Editor.LinkFormKey | static/script.js:474-478 | `LinkKeyEffect`: Escape closes the form; Enter inserts the link, closes the form and calls both debounced functions, or with a blank URL changes nothing; both prevent the default; other keys change nothing |
| Editor.Editor.PaletteKey | static/script.js:479-483 | `PaletteKeyEffect`: on a non-empty list ArrowDown and ArrowUp move the selection by `Next` and `Prev`, Enter closes the palette and opens the selected note unless it is already shown; the arrows and Enter prevent the default; Escape closes; other keys, and any key on an empty list, change nothing |
| Editor.Editor.RunShortcut | static/script.js:513-525 | `ShortcutEffect`: each Ctrl shortcut does its action (palette, new note with its text assigned, views, welcome, bold and italic with a save and a render scheduled, link form, or an immediate save that leaves the debounced one pending) and touches no other part of the page |

## Left out

- Rendering: the DOM, `marked.parse`, `vis.Network`, feather icons, focus, `scrollIntoView` and
  the active-note highlight are not modelled. The preview holds the Markdown source that would
  be rendered.
- Front end only: the palette's text input, the font selector, the preview toggle, scroll
  syncing, the save-status flash and opening external links are not modelled. None of them
  touches the modelled state.
- The 2-second `setInterval` that sends the window geometry is not modelled. `SyncState`
  models the backend side, and the geometry values are parameters.
- The UI config read by `init` (`get_config`, `preview_focused`) only toggles a CSS class,
  and is not modelled.
- Asynchrony: each backend call is a `Request` value and its answer a separate method call.
  Interleavings are whatever order the caller chooses, and none is ruled out.
- Time: it is a parameter `now`, and the event loop is `EventLoopTurn`.
- Browser default actions are not performed. The handlers return a `prevented` flag instead.
- The user's editing is modelled only as inserting text over the selection and moving the
  selection. Deletion keys, undo and paste are not modelled.
- Editor.LowerCase: stands in for `toLowerCase` only on the characters that matter to
  `ShortcutOf`. It folds `A`–`Z` and the Kelvin sign U+212A, the one other character whose
  lower case is a shortcut letter, and leaves every other character as it is.
- Selection offsets are counted in characters, while the browser counts UTF-16 code units.
  The two differ only for characters outside the Basic Multilingual Plane.
- Text.Trim: whitespace is a fixed set of characters: the ASCII spaces, NBSP, the line and
  paragraph separators and BOM. It does not cover the full Unicode `Zs` class that `\s` and
  `trim` use.
- Text.ParseShow: the continuation number is unbounded. The source's `parseInt` loses
  precision above 2^53, which is not modelled.
- Storage.SaveNote: write errors (disk full, permissions) are not modelled. Only the name
  check can fail.
- Storage.DeleteNote: `os.remove` errors are not modelled, nor is a `null` name, which makes
  the Python code raise and answer with an error.
- Storage.ConfigStore.SyncState: a non-empty list or string sent as a section counts as
  `update` raising. Python would accept a list of key-value pairs and may apply some pairs
  before raising; keys that are not strings do not fit the model's string-keyed dicts. The
  page only ever sends objects (static/script.js:411-422), where the model is exact.
- Storage.GetNotesSpec: the directory listing is a parameter; `None` stands for `listdir`
  failing.
- The Flask/pywebview startup, window creation and saving the config on close are outside
  the modelled core.
