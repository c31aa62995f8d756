/** The editor page of static/script.js: which note is open, the title field, the dialogs, the
    sidebar view, the two debounced actions (saving after 1500 ms, rendering the preview after
    150 ms) and the keyboard handler that routes each key to the topmost open layer. Calls to
    the backend are returned as `Request` values; their answers come back through the
    `...Arrived` and `...Done` methods, so one asynchronous function is a request step and a
    response step. */
module Editor {
  import opened Text
  import opened ListMarkers
  import opened Formatting
  import opened Palette
  import opened Debounce
  import Storage

  /** What `createNewNote` puts in the textarea. */
  const NewNoteText: string := "# Nuova Nota\n\n"
  /** What the textarea shows when `get_note_content` answers with its error dictionary. */
  const ErrorObjectText: string := "[object Object]"
  const SaveDelay: nat := 1500
  const RenderDelay: nat := 150

  /** `state.activeView`: the sidebar panel on show. */
  datatype View = Files | Graph | Settings

  /** The page's memory of the session apart from the textarea: `state` and the DOM flags the
      script reads back (the editor area shown, the title's value and `disabled`, the two
      dialogs and the fields of the link form). */
  datatype Session = Session(
    currentNote: Option<string>,
    isNewNote: bool,
    allNotes: seq<string>,
    editorShown: bool,
    title: string,
    titleLocked: bool,
    deleteDialog: bool,
    linkForm: bool,
    linkUrl: string,
    linkText: string,
    view: View)

  /** A note being created has no name yet. */
  predicate Consistent(s: Session) {
    s.isNewNote ==> s.currentNote.None?
  }

  /** The calls the page makes to the backend. */
  datatype Request =
    | GetNoteContent(name: string)
    | SaveNote(filename: string, content: string)
    | DeleteNote(target: Option<string>)   // `delete_note(state.currentNote)`, possibly null
    | GetNotes
    | GetGraphData

  /** What `get_note_content` resolves to: the text, or its error dictionary (which the
      textarea shows as `[object Object]`); or the call is rejected. */
  datatype ContentReply = Content(text: string) | ErrorDict | ContentRejected

  /** `save_note` resolving with status `success` and the stored name; anything else changes
      nothing on the page. */
  datatype SaveReply = Saved(filename: string) | NotSaved

  /** What happens to the session apart from the textarea. */
  datatype SessionEvent =
    | ShowWelcome                        // `showWelcomeScreen`
    | Opened(name: string)               // `openNote` once the content has arrived
    | Created                            // `createNewNote`
    | SaveSucceeded(filename: string)    // `saveCurrentNote` once `save_note` succeeded
    | Listed(notes: seq<string>)         // `loadNotesList` once `get_notes` answered
    | AskDelete                          // `showDeleteConfirmation`
    | CloseDelete                        // `hideDeleteConfirmation`
    | OpenLinkForm(seed: string)         // `showLinkModal`
    | CloseLinkForm                      // `hideLinkModal`
    | TypeLink(url: string, text: string) // typing into the link form
    | TypeTitle(title: string)           // typing into the title field
    | SwitchView(view: View)             // `switchSidebarView`

  /** `!state.currentNote || state.isNewNote` blocks the delete dialog: JavaScript treats a
      null and an empty name alike. */
  predicate CanDelete(s: Session) {
    s.currentNote.Some? && s.currentNote.value != "" && !s.isNewNote
  }

  /** `saveCurrentNote` would refresh the note list after saving under `filename`. */
  predicate NeedsRefresh(s: Session, filename: string) {
    s.isNewNote || s.currentNote != Some(filename)
  }

  function Apply(s: Session, e: SessionEvent): (r: Session)
    ensures Consistent(s) ==> Consistent(r)
    ensures r.currentNote != s.currentNote ==>
      e.ShowWelcome? || e.Opened? || e.Created? || e.SaveSucceeded?
    ensures r.isNewNote ==> s.isNewNote || e.Created?
    ensures r.deleteDialog && !s.deleteDialog ==> CanDelete(s)
    ensures r.title != s.title && !e.Created? && !e.Opened? && !e.SaveSucceeded? ==> !s.titleLocked
  {
    match e
    case ShowWelcome => s.(editorShown := false, currentNote := None)
    case Opened(name) =>
      s.(currentNote := Some(name), isNewNote := false, title := name, titleLocked := true,
         editorShown := true)
    case Created =>
      s.(currentNote := None, isNewNote := true, title := "", titleLocked := false,
         editorShown := true)
    case SaveSucceeded(f) =>
      s.(currentNote := Some(f), isNewNote := false, title := f, titleLocked := true)
    case Listed(notes) => s.(allNotes := notes)
    case AskDelete => if CanDelete(s) then s.(deleteDialog := true) else s
    case CloseDelete => s.(deleteDialog := false)
    case OpenLinkForm(seed) => s.(linkForm := true, linkText := seed)
    case CloseLinkForm => s.(linkForm := false, linkUrl := "", linkText := "")
    case TypeLink(url, text) => if s.linkForm then s.(linkUrl := url, linkText := text) else s
    case TypeTitle(t) => if s.titleLocked then s else s.(title := t)
    case SwitchView(v) => s.(view := v)
  }

  /** `saveCurrentNote` up to its call of `save_note`: a new note without a title is not
      saved; otherwise the name is the title or, when that is empty, the open note's name, with
      its first `.md` removed (a missing name throws before anything is sent), and an empty
      name is not saved. */
  function SaveRequest(s: Session, content: string): (r: Option<Request>)
    ensures r.Some? ==> r.value.SaveNote? && r.value.filename != "" && r.value.content == content
    ensures s.isNewNote && s.title == "" ==> r.None?
    ensures s.title == "" && s.currentNote.None? ==> r.None?
  {
    if s.isNewNote && s.title == "" then None
    else
      if s.title == "" && s.currentNote.None? then None
      else
        var filename := ReplaceFirst(if s.title != "" then s.title else s.currentNote.value, ".md", "");
        if filename == "" then None else Some(SaveNote(filename, content))
  }

  /** A title without `.md` is saved under exactly that name. */
  lemma SavesUnderTitle(s: Session, content: string)
    requires s.title != "" && !Contains(s.title, ".md")
    ensures SaveRequest(s, content) == Some(SaveNote(s.title, content))
  {
    ReplaceAbsent(s.title, ".md", "");
  }

  /** An untitled page saves under the open note's name, `.md` aside. */
  lemma SavesUnderOpenNote(s: Session, name: string, content: string)
    requires s.title == "" && !s.isNewNote && s.currentNote == Some(name)
    requires name != "" && !Contains(name, ".md")
    ensures SaveRequest(s, content) == Some(SaveNote(name, content))
  {
    ReplaceAbsent(name, ".md", "");
  }

  /** A fresh note is saved only once it has a title; the first successful save names it,
      locks its title and refreshes the note list. */
  lemma NewNoteFlow(s: Session, t: string, content: string)
    requires t != "" && !Contains(t, ".md")
    ensures var created := Apply(s, Created);
      var titled := Apply(created, TypeTitle(t));
      var saved := Apply(titled, SaveSucceeded(t));
      && SaveRequest(created, content) == None
      && SaveRequest(titled, content) == Some(SaveNote(t, content))
      && NeedsRefresh(titled, t)
      && saved.currentNote == Some(t) && !saved.isNewNote && saved.titleLocked && saved.title == t
  {
    SavesUnderTitle(Apply(Apply(s, Created), TypeTitle(t)), content);
  }

  /** Saving an opened note whose name is safe and has no `.md` sends that name, the backend
      stores it under that name, the session is left as it was and the list is not refreshed. */
  lemma ReopenedNoteSaves(s: Session, name: string, content: string, files: Storage.Dir)
    requires name != "" && !Contains(name, ".md") && !Storage.Unsafe(name)
    ensures var reopened := Apply(s, Opened(name));
      && SaveRequest(reopened, content) == Some(SaveNote(name, content))
      && Storage.SaveNote(files, name, content).0 == Storage.Success(name)
      && !NeedsRefresh(reopened, name)
      && Apply(reopened, SaveSucceeded(name)) == reopened
  {
    SavesUnderTitle(Apply(s, Opened(name)), content);
    assert Storage.SaveNote(files, name, content).0 == Storage.Success(name) by {
      Storage.SaveThenRead(files, name, content);
    }
  }

  /** The delete dialog opens only over a named, saved note. */
  lemma DeleteNeedsNote(s: Session)
    requires !s.deleteDialog
    ensures Apply(s, AskDelete).deleteDialog <==> CanDelete(s)
    ensures s.isNewNote || s.currentNote.None? || s.currentNote == Some("") ==>
      Apply(s, AskDelete) == s
  {
  }

  /** A confirmed deletion leaves the title field as it was and does not mark the note as
      new, so a save requested afterwards (a pending debounced save, or Ctrl+S on the welcome
      screen) still sends the deleted note's name and content. */
  lemma SaveAfterDelete(s: Session, name: string, content: string)
    requires name != "" && !Contains(name, ".md")
    ensures var gone := Apply(Apply(Apply(s, Opened(name)), CloseDelete), ShowWelcome);
      && gone.currentNote.None? && !gone.editorShown
      && SaveRequest(gone, content) == Some(SaveNote(name, content))
  {
    SavesUnderTitle(Apply(Apply(Apply(s, Opened(name)), CloseDelete), ShowWelcome), content);
  }

  /** Which part of the page a keydown goes to: an open dialog, then the palette, then Enter
      on a list line of the visible editor, then the Ctrl shortcuts. */
  datatype Layer = DeleteLayer | LinkLayer | PaletteLayer | ListLayer | ShortcutLayer | NoLayer

  function LayerOf(s: Session, paletteShown: bool, b: Buffer, key: string, ctrl: bool): (r: Layer)
    requires b.Valid()
    ensures s.deleteDialog <==> r == DeleteLayer
    ensures !s.deleteDialog && s.linkForm <==> r == LinkLayer
    ensures !s.deleteDialog && !s.linkForm && paletteShown <==> r == PaletteLayer
    ensures var listLine := key == "Enter" && s.editorShown && ParseItem(CurrentLine(b)).Some?;
      && (!s.deleteDialog && !s.linkForm && !paletteShown && listLine <==> r == ListLayer)
      && (!s.deleteDialog && !s.linkForm && !paletteShown && !listLine && ctrl <==> r == ShortcutLayer)
  {
    if s.deleteDialog then DeleteLayer
    else if s.linkForm then LinkLayer
    else if paletteShown then PaletteLayer
    else if key == "Enter" && s.editorShown && Enter(b).listed then ListLayer
    else if ctrl then ShortcutLayer
    else NoLayer
  }

  /** The Ctrl shortcuts, by `e.key.toLowerCase()`. */
  datatype Shortcut =
    | OpenPalette | NewNote | FilesView | GraphView | CloseNote
    | BoldText | ItalicText | LinkText | SaveNow | NoShortcut

  /** `toLowerCase` on the characters whose lower case is a shortcut letter: `A`-`Z`, and
      the Kelvin sign U+212A, whose lower case is `k`. */
  function LowerCase(s: string): (r: string)
    ensures |r| == |s|
  {
    seq(|s|, i requires 0 <= i < |s| =>
      if 'A' <= s[i] <= 'Z' then (s[i] as int + 32) as char
      else if s[i] == '\U{212A}' then 'k'
      else s[i])
  }

  function ShortcutOf(key: string): Shortcut {
    var k := LowerCase(key);
    if k == "p" then OpenPalette
    else if k == "n" then NewNote
    else if k == "e" then FilesView
    else if k == "g" then GraphView
    else if k == "w" then CloseNote
    else if k == "b" then BoldText
    else if k == "i" then ItalicText
    else if k == "k" then LinkText
    else if k == "s" then SaveNow
    else NoShortcut
  }

  /** Shift does not change a shortcut: `P` and `p` both open the palette. */
  lemma ShortcutIgnoresCase(c: char)
    requires 'a' <= c <= 'z'
    ensures ShortcutOf([c]) == ShortcutOf([(c as int - 32) as char])
  {
    assert LowerCase([c]) == [c];
    assert LowerCase([(c as int - 32) as char]) == [c];
  }

  /** The Kelvin sign lower-cases to `k`, so with Ctrl it opens the link form as `k` does. */
  lemma KelvinSignIsLink()
    ensures ShortcutOf("\U{212A}") == LinkText == ShortcutOf("K")
  {
    assert LowerCase("\U{212A}") == "k";
    assert LowerCase("K") == "k";
  }

  /** What the preview shows for the text the textarea received. */
  function Shown(reply: ContentReply): string
    requires !reply.ContentRejected?
  {
    if reply.Content? then reply.text else ErrorObjectText
  }

  /** The page: the session, the textarea, the palette, the two debounced functions, and the
      markdown the preview was last rendered from (`marked.parse` is not part of this model). */
  class Editor {
    var session: Session
    var preview: string
    const textarea: Textarea
    const palette: CommandPalette
    const saveTimer: Debouncer<()>
    const renderTimer: Debouncer<()>

    predicate Valid()
      reads this, textarea, palette, saveTimer, renderTimer
    {
      && textarea.Valid() && palette.Valid()
      && saveTimer != renderTimer
      && saveTimer.delay == SaveDelay && renderTimer.delay == RenderDelay
      && Consistent(session)
    }

    /** The page as `init` leaves it once `get_notes` has answered with `notes`: the welcome
        screen, the files view, nothing open. */
    constructor (notes: seq<string>)
      ensures Valid() && fresh(textarea) && fresh(palette) && fresh(saveTimer) && fresh(renderTimer)
      ensures session == Session(None, false, notes, false, "", false, false, false, "", "", Files)
      ensures textarea.State() == Buffer("", 0, 0) && !palette.shown
      ensures saveTimer.timer == Idle && renderTimer.timer == Idle
    {
      session := Session(None, false, notes, false, "", false, false, false, "", "", Files);
      preview := "";
      textarea := new Textarea();
      palette := new CommandPalette();
      saveTimer := new Debouncer(SaveDelay);
      renderTimer := new Debouncer(RenderDelay);
    }

    /** `showWelcomeScreen`: the editor is hidden and no note is open; `isNewNote` and the
        title field are left as they were. */
    method ShowWelcomeScreen()
      requires Valid()
      modifies this
      ensures Valid() && session == Apply(old(session), ShowWelcome) && preview == old(preview)
    {
      session := session.(editorShown := false, currentNote := None);
    }

    /** `openNote(name)` up to its call: nothing is asked for when that note is already on
        screen. */
    method OpenNote(name: string) returns (req: Option<Request>)
      ensures req.None? <==> session.currentNote == Some(name) && session.editorShown
      ensures req.Some? ==> req.value == GetNoteContent(name)
    {
      if session.currentNote == Some(name) && session.editorShown {
        req := None;
      } else {
        req := Some(GetNoteContent(name));
      }
    }

    /** `openNote(name)` once `get_note_content` has answered: the text (or `[object
        Object]`) is assigned to the textarea and rendered, the title
        shows the name and is locked, and the editor is shown. A rejected call changes
        nothing. */
    method NoteContentArrived(name: string, reply: ContentReply)
      requires Valid()
      modifies this, textarea
      ensures Valid()
      ensures reply.ContentRejected? ==>
        session == old(session) && preview == old(preview) && textarea.State() == old(textarea.State())
      ensures !reply.ContentRejected? ==>
        && session == Apply(old(session), Opened(name))
        && textarea.State() == Assigned(old(textarea.State()), Shown(reply))
        && preview == Shown(reply)
    {
      if !reply.ContentRejected? {
        var text := Shown(reply);
        session := Apply(session, Opened(name));
        textarea.SetValue(text);
        preview := text;
      }
    }

    /** `createNewNote`: an unnamed new note with the stock heading, an empty unlocked
        title, rendered and shown. */
    method CreateNewNote()
      requires Valid()
      modifies this, textarea
      ensures Valid() && session == Apply(old(session), Created)
      ensures textarea.State() == Assigned(old(textarea.State()), NewNoteText)
      ensures preview == NewNoteText
    {
      session := Apply(session, Created);
      textarea.SetValue(NewNoteText);
      preview := NewNoteText;
    }

    /** `saveCurrentNote` up to its call of `save_note`. */
    method SaveCurrentNote() returns (req: Option<Request>)
      requires Valid()
      ensures req == SaveRequest(session, textarea.value)
    {
      if session.isNewNote && session.title == "" {
        return None;
      }
      if session.title == "" && session.currentNote.None? {
        return None;
      }
      var filename := ReplaceFirst(if session.title != "" then session.title else session.currentNote.value, ".md", "");
      if filename == "" {
        return None;
      }
      req := Some(SaveNote(filename, textarea.value));
    }

    /** `saveCurrentNote` once `save_note` has answered: on success the note takes the stored
        name, is no longer new and its title is locked, and the note list is asked for again
        when the note was new or renamed. */
    method SaveDone(reply: SaveReply) returns (req: Option<Request>)
      requires Valid()
      modifies this
      ensures Valid() && preview == old(preview)
      ensures reply.NotSaved? ==> session == old(session) && req.None?
      ensures reply.Saved? ==>
        && session == Apply(old(session), SaveSucceeded(reply.filename))
        && (req.Some? <==> NeedsRefresh(old(session), reply.filename))
        && (req.Some? ==> req.value == GetNotes)
    {
      req := None;
      if reply.Saved? {
        var refresh := session.isNewNote || session.currentNote != Some(reply.filename);
        session := Apply(session, SaveSucceeded(reply.filename));
        if refresh {
          req := Some(GetNotes);
        }
      }
    }

    /** `loadNotesList` once `get_notes` has answered; a rejected call changes nothing. */
    method NotesArrived(notes: Option<seq<string>>)
      requires Valid()
      modifies this
      ensures Valid() && preview == old(preview)
      ensures session == if notes.Some? then Apply(old(session), Listed(notes.value)) else old(session)
    {
      if notes.Some? {
        session := session.(allNotes := notes.value);
      }
    }

    /** `showDeleteConfirmation`. */
    method ShowDeleteConfirmation()
      requires Valid()
      modifies this
      ensures Valid() && session == Apply(old(session), AskDelete) && preview == old(preview)
    {
      if session.currentNote.None? || session.currentNote.value == "" || session.isNewNote {
        return;
      }
      session := session.(deleteDialog := true);
    }

    /** `hideDeleteConfirmation`. */
    method HideDeleteConfirmation()
      requires Valid()
      modifies this
      ensures Valid() && session == Apply(old(session), CloseDelete) && preview == old(preview)
    {
      session := session.(deleteDialog := false);
    }

    /** `performDelete` up to its call: the open note's name, which may be null. */
    method PerformDelete() returns (req: Request)
      ensures req == DeleteNote(session.currentNote)
    {
      req := DeleteNote(session.currentNote);
    }

    /** `performDelete` once `delete_note` has answered. Any answer, an error status included,
        closes the dialog, goes to the welcome screen and asks for the note list; a rejected
        call only closes the dialog. */
    method DeleteDone(resolved: bool) returns (req: Option<Request>)
      requires Valid()
      modifies this
      ensures Valid() && preview == old(preview)
      ensures resolved ==>
        session == Apply(Apply(old(session), CloseDelete), ShowWelcome) && req == Some(GetNotes)
      ensures !resolved ==> session == Apply(old(session), CloseDelete) && req.None?
    {
      HideDeleteConfirmation();
      req := None;
      if resolved {
        ShowWelcomeScreen();
        req := Some(GetNotes);
      }
    }

    /** `showLinkModal`: the form opens with its text field holding the selection; the URL
        field keeps whatever it held. */
    method ShowLinkModal()
      requires Valid()
      modifies this
      ensures Valid() && preview == old(preview)
      ensures session == Apply(old(session), OpenLinkForm(textarea.State().Selected()))
    {
      session := Apply(session, OpenLinkForm(textarea.State().Selected()));
    }

    /** `hideLinkModal`: the form closes and both fields are emptied. */
    method HideLinkModal()
      requires Valid()
      modifies this
      ensures Valid() && session == Apply(old(session), CloseLinkForm) && preview == old(preview)
    {
      session := session.(linkForm := false, linkUrl := "", linkText := "");
    }

    /** Typing into the fields of the open link form. */
    method TypeLinkFields(url: string, text: string)
      requires Valid()
      modifies this
      ensures Valid() && session == Apply(old(session), TypeLink(url, text)) && preview == old(preview)
    {
      if session.linkForm {
        session := session.(linkUrl := url, linkText := text);
      }
    }

    /** `insertLinkFromModal` at time `now`: with a blank URL nothing happens and the form
        stays open; otherwise the link replaces the selection, the form closes and emptied,
        and a save and a render are scheduled. */
    method InsertLinkFromModal(now: int)
      requires Valid()
      modifies this, textarea, saveTimer, renderTimer
      ensures Valid() && preview == old(preview)
      ensures var r := InsertLink(old(textarea.State()), old(session.linkUrl), old(session.linkText));
        && (r.None? ==>
              && session == old(session) && textarea.State() == old(textarea.State())
              && saveTimer.timer == old(saveTimer.timer) && renderTimer.timer == old(renderTimer.timer))
        && (r.Some? ==>
              && session == Apply(old(session), CloseLinkForm) && textarea.State() == r.value
              && saveTimer.timer == Call(old(saveTimer.timer), now, SaveDelay, ())
              && renderTimer.timer == Call(old(renderTimer.timer), now, RenderDelay, ()))
    {
      var m := LinkMarkup(session.linkUrl, session.linkText);
      if m.None? {
        return;
      }
      textarea.ExecInsertText(m.value);
      HideLinkModal();
      saveTimer.Invoke(now, ());
      renderTimer.Invoke(now, ());
    }

    /** `formatText(cmd)` at time `now`: the textarea is rewritten as `Format` says; an edit
        schedules a save and a render; the link command opens the link form instead; an
        unknown command, or a list command that throws, schedules nothing. */
    method FormatText(cmd: Command, now: int) returns (r: Formatted)
      requires Valid()
      modifies this, textarea, saveTimer, renderTimer
      ensures Valid() && preview == old(preview)
      ensures r == Format(old(textarea.State()), cmd)
      ensures textarea.State() == if r.Edited? then r.buffer else old(textarea.State())
      ensures session == if r.LinkForm? then Apply(old(session), OpenLinkForm(r.seed)) else old(session)
      ensures saveTimer.timer == if r.Edited? then Call(old(saveTimer.timer), now, SaveDelay, ()) else old(saveTimer.timer)
      ensures renderTimer.timer == if r.Edited? then Call(old(renderTimer.timer), now, RenderDelay, ()) else old(renderTimer.timer)
    {
      r := textarea.FormatText(cmd);
      match r
      case Edited(_) =>
        saveTimer.Invoke(now, ());
        renderTimer.Invoke(now, ());
      case LinkForm(_) =>
        ShowLinkModal();
      case Threw =>
      case Ignored =>
    }

    /** Typing or pasting `text` into the textarea at time `now`: it replaces the selection,
        and the `input` event schedules a save and a render. */
    method TextInput(text: string, now: int)
      requires Valid()
      modifies textarea, saveTimer, renderTimer
      ensures Valid() && textarea.State() == InsertText(old(textarea.State()), text)
      ensures saveTimer.timer == Call(old(saveTimer.timer), now, SaveDelay, ())
      ensures renderTimer.timer == Call(old(renderTimer.timer), now, RenderDelay, ())
    {
      textarea.ExecInsertText(text);
      saveTimer.Invoke(now, ());
      renderTimer.Invoke(now, ());
    }

    /** Typing `t` into the title field at time `now`; a locked (disabled) field takes no
        input and fires no `input` event. */
    method TitleInput(t: string, now: int)
      requires Valid()
      modifies this, saveTimer
      ensures Valid() && session == Apply(old(session), TypeTitle(t)) && preview == old(preview)
      ensures saveTimer.timer == if old(session.titleLocked) then old(saveTimer.timer) else Call(old(saveTimer.timer), now, SaveDelay, ())
    {
      if !session.titleLocked {
        session := session.(title := t);
        saveTimer.Invoke(now, ());
      }
    }

    /** `switchSidebarView(v)`; the graph view asks for the graph data. */
    method SwitchSidebarView(v: View) returns (req: Option<Request>)
      requires Valid()
      modifies this
      ensures Valid() && session == Apply(old(session), SwitchView(v)) && preview == old(preview)
      ensures req == if v == Graph then Some(GetGraphData) else None
    {
      session := session.(view := v);
      req := if v == Graph then Some(GetGraphData) else None;
    }

    /** A turn of the event loop at time `now`: a due save runs `saveCurrentNote` up to its
        request, and a due render renders the textarea's text. */
    method EventLoopTurn(now: int) returns (req: Option<Request>)
      requires Valid()
      modifies this, saveTimer, renderTimer
      ensures Valid() && session == old(session)
      ensures saveTimer.timer == Tick(old(saveTimer.timer), now).0
      ensures req == if Tick(old(saveTimer.timer), now).1.Some? then SaveRequest(session, textarea.value) else None
      ensures renderTimer.timer == Tick(old(renderTimer.timer), now).0
      ensures preview == if Tick(old(renderTimer.timer), now).1.Some? then textarea.value else old(preview)
    {
      req := None;
      var save := saveTimer.Fire(now);
      if save.Some? {
        req := SaveCurrentNote();
      }
      var render := renderTimer.Fire(now);
      if render.Some? {
        preview := textarea.value;
      }
    }

    /** Neither debounced function was called. */
    twostate predicate TimersKept()
      reads saveTimer, renderTimer
    {
      saveTimer.timer == old(saveTimer.timer) && renderTimer.timer == old(renderTimer.timer)
    }

    /** Both debounced functions were called at time `now`, as the `input` event does. */
    twostate predicate TimersCalled(now: int)
      reads saveTimer, renderTimer
    {
      && saveTimer.timer == Call(old(saveTimer.timer), now, SaveDelay, ())
      && renderTimer.timer == Call(old(renderTimer.timer), now, RenderDelay, ())
    }

    /** The palette is as it was. */
    twostate predicate PaletteKept()
      reads palette
    {
      && palette.shown == old(palette.shown) && palette.items == old(palette.items)
      && palette.selected == old(palette.selected)
    }

    /** What a key does while the link form is open: Escape closes it; Enter inserts the link
        exactly as `insertLinkFromModal` does, or does nothing when the URL is blank; any
        other key changes nothing. */
    twostate predicate LinkKeyEffect(key: string, now: int, prevented: bool)
      requires old(textarea.Valid())
      reads this, textarea, saveTimer, renderTimer
    {
      && prevented == (key == "Escape" || key == "Enter")
      && preview == old(preview)
      && (key == "Escape" ==>
            session == Apply(old(session), CloseLinkForm) && textarea.State() == old(textarea.State())
            && TimersKept())
      && (key == "Enter" ==>
            var r := InsertLink(old(textarea.State()), old(session.linkUrl), old(session.linkText));
            if r.Some? then
              session == Apply(old(session), CloseLinkForm) && textarea.State() == r.value && TimersCalled(now)
            else
              session == old(session) && textarea.State() == old(textarea.State()) && TimersKept())
      && (key != "Escape" && key != "Enter" ==>
            session == old(session) && textarea.State() == old(textarea.State()) && TimersKept())
    }

    /** What a key does while the palette is shown: on a non-empty list the arrows move the
        selection with wrap-around and Enter closes the palette and opens the selected note;
        Escape closes it; anything else, and any key on an empty list, changes nothing. */
    twostate predicate PaletteKeyEffect(key: string, prevented: bool, requests: seq<Request>)
      requires old(palette.Valid())
      reads this, palette
    {
      var items, sel := old(palette.items), old(palette.selected);
      && prevented == (key == "ArrowUp" || key == "ArrowDown" || key == "Enter")
      && palette.items == items
      && (key == "ArrowDown" && items != [] ==>
            palette.selected == Next(sel, |items|) && palette.shown == old(palette.shown) && requests == [])
      && (key == "ArrowUp" && items != [] ==>
            palette.selected == Prev(sel, |items|) && palette.shown == old(palette.shown) && requests == [])
      && (key == "Enter" && items != [] ==>
            && palette.selected == sel && !palette.shown
            && var name := items[sel];
            requests == if old(session.currentNote) == Some(name) && old(session.editorShown) then []
                        else [GetNoteContent(name)])
      && (key == "Escape" ==> !palette.shown && palette.selected == sel && requests == [])
      && ((items == [] || !prevented) && key != "Escape" ==>
            palette.shown == old(palette.shown) && palette.selected == sel && requests == [])
    }

    /** What a Ctrl shortcut does. Each one changes only its own part of the page: only the
        palette shortcut touches the palette, only bold and italic schedule a save and a
        render, only a new note renders, and only the graph view and Ctrl+S ask the backend
        for something. Ctrl+S leaves a pending debounced save armed. */
    twostate predicate ShortcutEffect(sc: Shortcut, now: int, prevented: bool, requests: seq<Request>)
      requires old(textarea.Valid())
      reads this, textarea, palette, saveTimer, renderTimer
    {
      && prevented == (sc != NoShortcut)
      && (sc != OpenPalette ==> PaletteKept())
      && (sc != BoldText && sc != ItalicText ==> TimersKept())
      && (sc != NewNote ==> preview == old(preview))
      && (sc != NewNote && sc != BoldText && sc != ItalicText ==> textarea.State() == old(textarea.State()))
      && (sc != GraphView && sc != SaveNow ==> requests == [])
      && match sc
         case OpenPalette =>
           palette.shown && palette.items == old(session.allNotes) && palette.selected == 0
           && session == old(session)
         case NewNote =>
           session == Apply(old(session), Created) && preview == NewNoteText
           && textarea.State() == Assigned(old(textarea.State()), NewNoteText)
         case FilesView => session == Apply(old(session), SwitchView(Files))
         case GraphView => session == Apply(old(session), SwitchView(Graph)) && requests == [GetGraphData]
         case CloseNote => session == Apply(old(session), ShowWelcome)
         case BoldText =>
           textarea.State() == Wrap(old(textarea.State()), "**") && session == old(session) && TimersCalled(now)
         case ItalicText =>
           textarea.State() == Wrap(old(textarea.State()), "*") && session == old(session) && TimersCalled(now)
         case LinkText => session == Apply(old(session), OpenLinkForm(old(textarea.State()).Selected()))
         case SaveNow =>
           session == old(session)
           && requests == (var r := SaveRequest(old(session), old(textarea.value)); if r.Some? then [r.value] else [])
         case NoShortcut => session == old(session)
    }

    /** The keydown handler, for a key named `key` with Ctrl held or not, at time `now`. The
        topmost open layer takes the key and no layer below it sees it: the delete dialog
        (Escape closes it, Enter confirms), the link form (Escape closes it, Enter inserts),
        the palette (the arrows and Enter navigate, Escape closes it), Enter on a list line
        of the visible editor, and last the Ctrl shortcuts. `requests` are the backend calls
        the key starts; `prevented` is `e.preventDefault()`. */
    method KeyDown(key: string, ctrl: bool, now: int)
      returns (layer: Layer, prevented: bool, requests: seq<Request>)
      requires Valid()
      modifies this, textarea, palette, saveTimer, renderTimer
      ensures Valid()
      ensures layer == LayerOf(old(session), old(palette.shown), old(textarea.State()), key, ctrl)
      ensures layer == DeleteLayer ==>
        && textarea.State() == old(textarea.State()) && PaletteKept() && TimersKept()
        && preview == old(preview)
        && session == (if key == "Escape" then Apply(old(session), CloseDelete) else old(session))
        && requests == (if key == "Enter" then [DeleteNote(old(session.currentNote))] else [])
        && prevented == (key == "Escape" || key == "Enter")
      ensures layer == LinkLayer ==> PaletteKept() && requests == [] && LinkKeyEffect(key, now, prevented)
      ensures layer == PaletteLayer ==>
        && session == old(session) && textarea.State() == old(textarea.State()) && TimersKept()
        && preview == old(preview) && PaletteKeyEffect(key, prevented, requests)
      ensures layer == ListLayer ==>
        && session == old(session) && requests == [] && PaletteKept() && preview == old(preview)
        && EnterResult(textarea.State(), prevented, true) == Enter(old(textarea.State()))
        && saveTimer.timer == old(saveTimer.timer)
        && renderTimer.timer == Call(old(renderTimer.timer), now, RenderDelay, ())
      ensures layer == ShortcutLayer ==> ShortcutEffect(ShortcutOf(key), now, prevented, requests)
      ensures layer == NoLayer ==>
        && session == old(session) && textarea.State() == old(textarea.State())
        && PaletteKept() && TimersKept() && preview == old(preview)
        && requests == [] && !prevented
    {
      layer := LayerOf(session, palette.shown, textarea.State(), key, ctrl);
      match layer
      case DeleteLayer =>
        prevented, requests := DeleteDialogKey(key);
      case LinkLayer =>
        prevented := LinkFormKey(key, now);
        requests := [];
      case PaletteLayer =>
        prevented, requests := PaletteKey(key);
      case ListLayer =>
        var listed: bool;
        prevented, listed := textarea.PressEnter();
        renderTimer.Invoke(now, ());
        requests := [];
      case ShortcutLayer =>
        prevented, requests := RunShortcut(ShortcutOf(key), now);
      case NoLayer =>
        prevented, requests := false, [];
    }

    /** A key while the delete dialog is open. */
    method DeleteDialogKey(key: string) returns (prevented: bool, requests: seq<Request>)
      requires Valid()
      modifies this
      ensures Valid() && preview == old(preview)
      ensures session == (if key == "Escape" then Apply(old(session), CloseDelete) else old(session))
      ensures requests == (if key == "Enter" then [DeleteNote(old(session.currentNote))] else [])
      ensures prevented == (key == "Escape" || key == "Enter")
    {
      prevented, requests := false, [];
      if key == "Escape" {
        prevented := true;
        HideDeleteConfirmation();
      }
      if key == "Enter" {
        prevented := true;
        var req := PerformDelete();
        requests := [req];
      }
    }

    /** A key while the link form is open. */
    method LinkFormKey(key: string, now: int) returns (prevented: bool)
      requires Valid()
      modifies this, textarea, saveTimer, renderTimer
      ensures Valid() && preview == old(preview)
      ensures LinkKeyEffect(key, now, prevented)
    {
      prevented := false;
      if key == "Escape" {
        prevented := true;
        HideLinkModal();
      }
      if key == "Enter" {
        prevented := true;
        InsertLinkFromModal(now);
      }
    }

    /** A key while the palette is open; Escape closes it without `preventDefault`. */
    method PaletteKey(key: string) returns (prevented: bool, requests: seq<Request>)
      requires Valid()
      modifies palette
      ensures Valid()
      ensures PaletteKeyEffect(key, prevented, requests)
    {
      prevented, requests := false, [];
      if key == "ArrowUp" || key == "ArrowDown" || key == "Enter" {
        prevented := true;
        var chosen := palette.Navigate(if key == "ArrowUp" then Up else if key == "ArrowDown" then Down else Choose);
        if chosen.Some? {
          var req := OpenNote(chosen.value);
          requests := if req.Some? then [req.value] else [];
        }
      }
      if key == "Escape" {
        palette.Close();
      }
    }

    /** The Ctrl shortcuts. Ctrl+S saves at once without cancelling a pending debounced save
        (`state.autosaveTimeout` is never set, so clearing it does nothing). */
    method RunShortcut(sc: Shortcut, now: int) returns (prevented: bool, requests: seq<Request>)
      requires Valid()
      modifies this, textarea, palette, saveTimer, renderTimer
      ensures Valid() && ShortcutEffect(sc, now, prevented, requests)
    {
      prevented, requests := sc != NoShortcut, [];
      match sc
      case OpenPalette => palette.Open(session.allNotes);
      case NewNote => CreateNewNote();
      case FilesView => var _ := SwitchSidebarView(Files);
      case GraphView => requests := [GetGraphData]; var _ := SwitchSidebarView(Graph);
      case CloseNote => ShowWelcomeScreen();
      case BoldText => var _ := FormatText(Bold, now);
      case ItalicText => var _ := FormatText(Italic, now);
      case LinkText => var _ := FormatText(Link, now);
      case SaveNow =>
        var req := SaveCurrentNote();
        requests := if req.Some? then [req.value] else [];
      case NoShortcut =>
    }
  }
}
