/** The notes API of main.py over a notes directory abstracted as a map from file name to
    content: listing, reading, saving and deleting notes, the wiki-link graph, and the UI
    state kept in `_last_known_state`. */
module Storage {
  import opened Text

  /** The notes directory: file name to file content. */
  type Dir = map<string, string>

  // ----- Names ----------------------------------------------------------------------------

  /** `if not filename.endswith('.md'): filename += '.md'`. */
  function NoteKey(name: string): (key: string)
    ensures EndsWith(key, ".md")
    ensures EndsWith(name, ".md") ==> key == name
    ensures !EndsWith(name, ".md") ==> |key| == |name| + 3 && key[..|name|] == name
  {
    if EndsWith(name, ".md") then name else name + ".md"
  }

  /** `note.replace('.md', '')`: every occurrence goes. */
  function StripMd(s: string): string {
    ReplaceAll(s, ".md", "")
  }

  /** A name without `.md` in it comes back unchanged from `.md` being added and stripped. */
  lemma {:induction false} StripAddedMd(s: string)
    requires !Contains(s, ".md")
    ensures StripMd(s + ".md") == s
    decreases |s|
  {
    var t := s + ".md";
    if s == [] {
      assert t[..3] == ".md" && t[3..] == [];
      assert StripMd(t) == "" + StripMd(t[3..]);
    } else {
      assert t[0] == s[0] && t[1..] == s[1..] + ".md";
      if |s| >= 3 {
        assert t[..3] == s[..3];
        assert !StartsWith(s, ".md");
      } else if |s| == 2 {
        assert t[..3] == s + ".";
      } else {
        assert t[..3] == s + ".m";
      }
      StripAddedMd(s[1..]);
    }
  }

  // ----- get_notes --------------------------------------------------------------------------

  /** Python's string order: code point by code point, a proper prefix first. */
  predicate Le(a: string, b: string)
    decreases |a|
  {
    a == [] || (b != [] && (a[0] < b[0] || (a[0] == b[0] && Le(a[1..], b[1..]))))
  }

  lemma {:induction false} LeTotal(a: string, b: string)
    ensures Le(a, b) || Le(b, a)
    decreases |a|
  {
    if a != [] && b != [] && a[0] == b[0] {
      LeTotal(a[1..], b[1..]);
    }
  }

  predicate Sorted(s: seq<string>) {
    forall i :: 0 < i < |s| ==> Le(s[i - 1], s[i])
  }

  /** `x` put in front of the first element it does not follow. */
  function Insert(x: string, s: seq<string>): (r: seq<string>)
    ensures multiset(r) == multiset(s) + multiset{x}
    ensures r != [] && (r[0] == x || (s != [] && r[0] == s[0]))
  {
    if s == [] || Le(x, s[0]) then [x] + s
    else
      assert s == [s[0]] + s[1..];
      [s[0]] + Insert(x, s[1..])
  }

  lemma {:induction false} InsertSorted(x: string, s: seq<string>)
    requires Sorted(s)
    ensures Sorted(Insert(x, s))
  {
    if s != [] && !Le(x, s[0]) {
      LeTotal(x, s[0]);
      InsertSorted(x, s[1..]);
    }
  }

  /** `sorted(names)`. */
  function Sort(s: seq<string>): seq<string> {
    if s == [] then [] else Insert(s[0], Sort(s[1..]))
  }

  /** `sorted` returns the same names, in order. */
  lemma {:induction false} SortSpec(s: seq<string>)
    ensures Sorted(Sort(s)) && multiset(Sort(s)) == multiset(s)
  {
    if s != [] {
      SortSpec(s[1..]);
      InsertSorted(s[0], Sort(s[1..]));
      assert s == [s[0]] + s[1..];
    }
  }

  /** The `.md` entries of a listing, with `.md` removed, in listing order. */
  function NoteNames(listing: seq<string>): seq<string> {
    if listing == [] then []
    else (if EndsWith(listing[0], ".md") then [StripMd(listing[0])] else []) + NoteNames(listing[1..])
  }

  lemma {:induction false} NoteNamesIn(listing: seq<string>, n: string)
    ensures n in NoteNames(listing) <==> exists f :: f in listing && EndsWith(f, ".md") && StripMd(f) == n
  {
    if listing != [] {
      NoteNamesIn(listing[1..], n);
      assert forall f :: f in listing <==> f == listing[0] || f in listing[1..];
    }
  }

  /** `get_notes`, given what `os.listdir` returned (`None` when it raised). */
  function GetNotes(listing: Option<seq<string>>): seq<string> {
    match listing
    case None => []
    case Some(entries) => Sort(NoteNames(entries))
  }

  /** `get_notes` lists, sorted, exactly the `.md` entries with every `.md` removed, one name
      per entry; it is empty when the directory cannot be listed. */
  lemma GetNotesSpec(listing: Option<seq<string>>)
    ensures listing.None? ==> GetNotes(listing) == []
    ensures listing.Some? ==>
      Sorted(GetNotes(listing)) && multiset(GetNotes(listing)) == multiset(NoteNames(listing.value))
    ensures listing.Some? ==> forall n :: n in GetNotes(listing) <==>
      exists f :: f in listing.value && EndsWith(f, ".md") && StripMd(f) == n
  {
    if listing.Some? {
      var names := NoteNames(listing.value);
      SortSpec(names);
      forall n
        ensures n in GetNotes(listing) <==> exists f :: f in listing.value && EndsWith(f, ".md") && StripMd(f) == n
      {
        NoteNamesIn(listing.value, n);
        assert n in GetNotes(listing) <==> n in multiset(GetNotes(listing));
      }
    }
  }

  // ----- get_note_content, save_note, delete_note --------------------------------------------

  /** `get_note_content`: the file's text, or `None` where the code returns its error dict. */
  function ReadNote(files: Dir, name: string): (r: Option<string>)
    ensures r.Some? <==> NoteKey(name) in files
    ensures r.Some? ==> r.value == files[NoteKey(name)]
  {
    var key := NoteKey(name);
    if key in files then Some(files[key]) else None
  }

  /** What `save_note` and `delete_note` answer. */
  datatype Reply = Success(name: string) | Failure(message: string)

  /** The names `save_note` refuses: those containing `..`, `/` or `\`. */
  predicate Unsafe(name: string) {
    Contains(name, "..") || '/' in name || '\\' in name
  }

  /** `save_note`: an unsafe name is refused and nothing is written; otherwise the content is
      written under the name with `.md` added if missing, and the answer carries that file
      name with every `.md` removed. */
  function SaveNote(files: Dir, name: string, content: string): (r: (Reply, Dir))
    ensures r.0.Failure? <==> Unsafe(name)
    ensures r.0.Failure? ==> r.1 == files
    ensures r.0.Success? ==>
      && r.1 == files[NoteKey(name) := content] && r.0.name == StripMd(NoteKey(name))
      && ReadNote(r.1, name) == Some(content)
  {
    if Unsafe(name) then (Failure("Nome file non valido."), files)
    else
      var key := NoteKey(name);
      (Success(StripMd(key)), files[key := content])
  }

  /** A safe name without `.md` in it is saved as `name.md`, the answer names it as it was
      given, and reading that name gives back what was saved while every other file stays. */
  lemma SaveThenRead(files: Dir, name: string, content: string)
    requires !Unsafe(name) && !Contains(name, ".md")
    ensures var (reply, after) := SaveNote(files, name, content);
      && reply == Success(name) && ReadNote(after, reply.name) == Some(content)
      && forall f :: f in files && f != name + ".md" ==> f in after && after[f] == files[f]
  {
    if EndsWith(name, ".md") {
      assert StartsWith(name[|name| - 3..], ".md");
      ContainsSuffix(name, |name| - 3, ".md");
    }
    StripAddedMd(name);
  }

  /** An occurrence anywhere is an occurrence. */
  lemma {:induction false} ContainsSuffix(s: string, i: nat, p: string)
    requires i <= |s| && StartsWith(s[i..], p)
    ensures Contains(s, p)
    decreases i
  {
    if i > 0 {
      assert s[1..][i - 1..] == s[i..];
      ContainsSuffix(s[1..], i - 1, p);
    }
  }

  /** `delete_note`: the file is removed if it exists; otherwise an error and no change. */
  function DeleteNote(files: Dir, name: string): (r: (Reply, Dir))
    ensures r.0.Success? <==> NoteKey(name) in files
    ensures r.0.Success? ==> r.1 == files - {NoteKey(name)} && ReadNote(r.1, name).None?
    ensures r.0.Failure? ==> r.1 == files
  {
    var key := NoteKey(name);
    if key in files then (Success(""), files - {key})
    else (Failure("File non trovato."), files)
  }

  // ----- get_graph_data ----------------------------------------------------------------------

  /** Where the lazy `(.*?)\]\]` started at `k` first finds `]]`, unless a line break or the
      end of the text comes first. */
  function CloseAt(s: string, k: nat): (r: Option<nat>)
    requires k <= |s|
    ensures r.Some? ==> k <= r.value && r.value + 2 <= |s| && s[r.value] == ']' && s[r.value + 1] == ']'
    ensures r.Some? ==> forall m :: k <= m < r.value ==> s[m] != '\n'
    decreases |s| - k
  {
    if k + 2 <= |s| && s[k] == ']' && s[k + 1] == ']' then Some(k)
    else if k < |s| && s[k] != '\n' then CloseAt(s, k + 1)
    else None
  }

  /** `re.findall(r'\[\[(.*?)\]\]', s[i:])`: matches do not overlap, and after a failed start
      the search moves on by one character. */
  function Links(s: string, i: nat): seq<string>
    requires i <= |s|
    decreases |s| - i
  {
    if i + 2 > |s| then []
    else if s[i] == '[' && s[i + 1] == '[' then
      match CloseAt(s, i + 2)
      case Some(k) => [s[i + 2..k]] + Links(s, k + 2)
      case None => Links(s, i + 1)
    else Links(s, i + 1)
  }

  function WikiLinks(s: string): seq<string> {
    Links(s, 0)
  }

  /** Every link found is the inside of a `[[...]]` in the text, on one line. */
  lemma {:induction false} LinksOccur(s: string, i: nat)
    requires i <= |s|
    ensures forall l :: l in Links(s, i) ==> '\n' !in l && Contains(s, "[[" + l + "]]")
    decreases |s| - i
  {
    if i + 2 <= |s| {
      if s[i] == '[' && s[i + 1] == '[' && CloseAt(s, i + 2).Some? {
        var k := CloseAt(s, i + 2).value;
        var rest := Links(s, k + 2);
        assert Links(s, i) == [s[i + 2..k]] + rest;
        LinkAt(s, i, k);
        LinksOccur(s, k + 2);
        forall l | l in Links(s, i)
          ensures '\n' !in l && Contains(s, "[[" + l + "]]")
        {
          if l != s[i + 2..k] {
            assert l in rest;
          }
        }
      } else {
        assert Links(s, i) == Links(s, i + 1);
        LinksOccur(s, i + 1);
      }
    }
  }

  /** The link found between `[[` at `i` and `]]` at `k` lies on one line and occurs in
      brackets. */
  lemma LinkAt(s: string, i: nat, k: nat)
    requires i + 2 <= k && k + 2 <= |s| && s[i] == '[' && s[i + 1] == '['
    requires s[k] == ']' && s[k + 1] == ']'
    requires forall m :: i + 2 <= m < k ==> s[m] != '\n'
    ensures '\n' !in s[i + 2..k] && Contains(s, "[[" + s[i + 2..k] + "]]")
  {
    var l := s[i + 2..k];
    assert s[i..k + 2] == "[[" + l + "]]";
    ContainsSuffix(s, i, "[[" + l + "]]");
    assert forall m :: 0 <= m < |l| ==> l[m] == s[i + 2 + m];
  }

  /** A note name written as `[[name]]` is found as a link, when it holds no `]` and no line
      break. */
  lemma WikiLinkOfName(name: string)
    requires ']' !in name && '\n' !in name
    ensures WikiLinks("[[" + name + "]]") == [name]
  {
    var s := "[[" + name + "]]";
    assert forall m :: 2 <= m < 2 + |name| ==> s[m] == name[m - 2];
    CloseAtIs(s, 2, 2 + |name|);
    assert s[2..2 + |name|] == name;
    assert Links(s, 4 + |name|) == [];
    assert Links(s, 0) == [name] + Links(s, 4 + |name|);
  }

  lemma {:induction false} CloseAtIs(s: string, k: nat, c: nat)
    requires k <= c && c + 2 <= |s| && s[c] == ']' && s[c + 1] == ']'
    requires forall m :: k <= m < c ==> s[m] != '\n' && s[m] != ']'
    ensures CloseAt(s, k) == Some(c)
    decreases c - k
  {
    if k < c {
      CloseAtIs(s, k + 1, c);
    }
  }

  type Edge = (string, string)

  /** The edges a note's links give, in link order: links to another listed note. */
  function NoteEdges(name: string, links: seq<string>, notes: seq<string>): seq<Edge> {
    if links == [] then []
    else
      var last := links[|links| - 1];
      NoteEdges(name, links[..|links| - 1], notes) + (if last in notes && last != name then [(name, last)] else [])
  }

  /** The edges of one note: none when its content cannot be read. */
  function EdgesOf(name: string, notes: seq<string>, files: Dir): seq<Edge> {
    match ReadNote(files, name)
    case None => []
    case Some(content) => NoteEdges(name, WikiLinks(content), notes)
  }

  /** The edges of the notes `from`, note after note, duplicates included. */
  function Candidates(from: seq<string>, notes: seq<string>, files: Dir): seq<Edge> {
    if from == [] then []
    else Candidates(from[..|from| - 1], notes, files) + EdgesOf(from[|from| - 1], notes, files)
  }

  /** Each element at its first occurrence only. */
  function Dedup<T(==)>(xs: seq<T>): seq<T> {
    if xs == [] then []
    else
      var d := Dedup(xs[..|xs| - 1]);
      var x := xs[|xs| - 1];
      if x in d then d else d + [x]
  }

  predicate NoDuplicates<T(==)>(xs: seq<T>) {
    forall i, j :: 0 <= i < j < |xs| ==> xs[i] != xs[j]
  }

  /** Dropping repeats keeps every element once and nothing else. */
  lemma {:induction false} DedupSpec<T>(xs: seq<T>)
    ensures NoDuplicates(Dedup(xs))
    ensures forall x :: x in Dedup(xs) <==> x in xs
  {
    if xs != [] {
      var init := xs[..|xs| - 1];
      DedupSpec(init);
      assert xs == init + [xs[|xs| - 1]];
    }
  }

  lemma {:induction false} NoteEdgesIn(name: string, links: seq<string>, notes: seq<string>, e: Edge)
    ensures e in NoteEdges(name, links, notes) <==> e.0 == name && e.1 in links && e.1 in notes && e.1 != name
  {
    if links != [] {
      var init := links[..|links| - 1];
      NoteEdgesIn(name, init, notes, e);
      assert links == init + [links[|links| - 1]];
    }
  }

  /** The edges of one note are its links to other listed notes, when it can be read. */
  lemma EdgesOfIn(name: string, notes: seq<string>, files: Dir, e: Edge)
    ensures e in EdgesOf(name, notes, files) <==>
      && e.0 == name && ReadNote(files, name).Some?
      && e.1 in WikiLinks(ReadNote(files, name).value) && e.1 in notes && e.1 != e.0
  {
    if ReadNote(files, name).Some? {
      NoteEdgesIn(name, WikiLinks(ReadNote(files, name).value), notes, e);
    }
  }

  lemma {:induction false} CandidatesIn(from: seq<string>, notes: seq<string>, files: Dir, e: Edge)
    ensures e in Candidates(from, notes, files) <==>
      && e.0 in from && ReadNote(files, e.0).Some?
      && e.1 in WikiLinks(ReadNote(files, e.0).value) && e.1 in notes && e.1 != e.0
  {
    if from != [] {
      var init := from[..|from| - 1];
      var last := from[|from| - 1];
      var earlier, own := Candidates(init, notes, files), EdgesOf(last, notes, files);
      CandidatesIn(init, notes, files, e);
      EdgesOfIn(last, notes, files, e);
      assert Candidates(from, notes, files) == earlier + own;
      assert e in earlier + own <==> e in earlier || e in own;
      assert from == init + [last];
      assert e.0 in from <==> e.0 in init || e.0 == last;
    }
  }

  /** `get_graph_data`: a node per listed note, and the edges of each readable note to the
      listed notes its `[[...]]` links name, other than itself, each edge once, in the order
      first found. */
  method GetGraphData(listing: Option<seq<string>>, files: Dir) returns (nodes: seq<string>, edges: seq<Edge>)
    ensures nodes == GetNotes(listing)
    ensures edges == Dedup(Candidates(nodes, nodes, files))
  {
    nodes := GetNotes(listing);
    edges := CollectEdges(nodes, files);
  }

  /** The outer loop of `get_graph_data`: note after note, the edges of its links are added. */
  method CollectEdges(notes: seq<string>, files: Dir) returns (edges: seq<Edge>)
    ensures edges == Dedup(Candidates(notes, notes, files))
  {
    edges := [];
    var i := 0;
    while i < |notes|
      invariant i <= |notes|
      invariant edges == Dedup(Candidates(notes[..i], notes, files))
    {
      var name := notes[i];
      var before := Candidates(notes[..i], notes, files);
      var content := ReadNote(files, name);
      if content.Some? {
        edges := AddLinkEdges(edges, before, name, WikiLinks(content.value), notes);
      }
      assert edges == Dedup(Candidates(notes[..i + 1], notes, files)) by {
        CandidatesSnoc(notes, i, files);
        if content.Some? {
          assert EdgesOf(name, notes, files) == NoteEdges(name, WikiLinks(content.value), notes);
        } else {
          assert EdgesOf(name, notes, files) == [];
          assert before + [] == before;
        }
      }
      i := i + 1;
    }
    assert notes[..i] == notes;
  }

  /** The inner loop of `get_graph_data`: the edges of note `name` to the listed notes among
      its `links` are appended to `edges` in link order, skipping those already there. */
  method AddLinkEdges(edges0: seq<Edge>, before: seq<Edge>, name: string, links: seq<string>, notes: seq<string>)
    returns (edges: seq<Edge>)
    requires edges0 == Dedup(before)
    ensures edges == Dedup(before + NoteEdges(name, links, notes))
  {
    edges := edges0;
    var j := 0;
    assert before + NoteEdges(name, links[..0], notes) == before by {
      assert links[..0] == [];
    }
    while j < |links|
      invariant j <= |links|
      invariant edges == Dedup(before + NoteEdges(name, links[..j], notes))
    {
      var link := links[j];
      LinkStep(before, name, links, j, notes);
      if link in notes && name != link {
        var edge := (name, link);
        if edge !in edges {
          edges := edges + [edge];
        }
      }
      j := j + 1;
    }
    assert links[..j] == links;
  }

  /** One pass of the inner loop of `get_graph_data`: the edge to `links[j]` is appended when
      it is wanted and not yet there. */
  lemma LinkStep(before: seq<Edge>, name: string, links: seq<string>, j: nat, notes: seq<string>)
    requires j < |links|
    ensures var d := Dedup(before + NoteEdges(name, links[..j], notes)); var l := links[j];
      Dedup(before + NoteEdges(name, links[..j + 1], notes))
        == if l in notes && l != name && (name, l) !in d then d + [(name, l)] else d
  {
    var found := NoteEdges(name, links[..j], notes);
    var l := links[j];
    NoteEdgesSnoc(name, links, j, notes);
    if l in notes && l != name {
      assert before + NoteEdges(name, links[..j + 1], notes) == (before + found) + [(name, l)];
      DedupSnoc(before + found, (name, l));
    } else {
      assert before + NoteEdges(name, links[..j + 1], notes) == before + found;
    }
  }

  lemma DedupSnoc<T>(xs: seq<T>, x: T)
    ensures Dedup(xs + [x]) == if x in Dedup(xs) then Dedup(xs) else Dedup(xs) + [x]
  {
    assert (xs + [x])[..|xs|] == xs;
  }

  lemma NoteEdgesSnoc(name: string, links: seq<string>, j: nat, notes: seq<string>)
    requires j < |links|
    ensures var l := links[j];
      NoteEdges(name, links[..j + 1], notes)
        == NoteEdges(name, links[..j], notes) + (if l in notes && l != name then [(name, l)] else [])
  {
    assert links[..j + 1][..j] == links[..j];
  }

  lemma CandidatesSnoc(notes: seq<string>, i: nat, files: Dir)
    requires i < |notes|
    ensures Candidates(notes[..i + 1], notes, files) == Candidates(notes[..i], notes, files) + EdgesOf(notes[i], notes, files)
  {
    assert notes[..i + 1][..i] == notes[..i];
  }

  /** An edge `(a, b)` is in the graph exactly when `a` and `b` are listed notes, they differ,
      and `a` can be read and links to `b`; no edge appears twice. */
  lemma GraphEdges(listing: Option<seq<string>>, files: Dir, a: string, b: string)
    ensures var notes := GetNotes(listing); var edges := Dedup(Candidates(notes, notes, files));
      && NoDuplicates(edges)
      && ((a, b) in edges <==>
          a in notes && b in notes && a != b && ReadNote(files, a).Some? && b in WikiLinks(ReadNote(files, a).value))
  {
    var notes := GetNotes(listing);
    DedupSpec(Candidates(notes, notes, files));
    CandidatesIn(notes, notes, files, (a, b));
  }

  // ----- load_config, sync_state -----------------------------------------------------------

  /** JSON values as `json.load` returns them. */
  datatype Json =
    | JNull
    | JBool(b: bool)
    | JNum(n: int)
    | JStr(s: string)
    | JArray(items: seq<Json>)
    | JObject(fields: map<string, Json>)

  /** What opening and parsing config.json gives. */
  datatype ConfigFile =
    | Missing                    // FileNotFoundError
    | Malformed                  // json.JSONDecodeError
    | Unreadable                 // any other error opening or reading the file
    | Parsed(value: Json)

  const EmptyObject: Json := JObject(map[])

  /** `d.setdefault(key, {})` on the dict `d`: the key keeps its value, or gets an empty dict. */
  function SetDefault(d: map<string, Json>, key: string): (r: map<string, Json>)
    ensures key in r && r.Keys == d.Keys + {key}
    ensures forall k :: k in d ==> r[k] == d[k]
    ensures key !in d ==> r[key] == EmptyObject
  {
    if key in d then d else d[key := EmptyObject]
  }

  /** `dict.update(other)`: the other's keys win, every other key stays. */
  function Update(d: map<string, Json>, other: map<string, Json>): (r: map<string, Json>)
    ensures r.Keys == d.Keys + other.Keys
    ensures forall k :: k in other ==> r[k] == other[k]
    ensures forall k :: k in d && k !in other ==> r[k] == d[k]
  {
    map k | k in d.Keys + other.Keys :: if k in other then other[k] else d[k]
  }

  /** What `dict.update` accepts as its argument and merges in this model: a dict, or an
      empty list or string, which add nothing. */
  predicate Mergeable(j: Json) {
    j.JObject? || j == JArray([]) || j == JStr("")
  }

  /** `state.setdefault(key, {}).update(incoming[key])`: the new state, and whether it ran to
      the end. `setdefault` has already added the key when `update` raises: the stored
      section is not a dict, or the incoming one is neither a dict nor an empty list or
      string. */
  function MergeSection(state: map<string, Json>, incoming: map<string, Json>, key: string): (r: (map<string, Json>, bool))
    requires key in incoming
    ensures r.1 <==> SetDefault(state, key)[key].JObject? && Mergeable(incoming[key])
    ensures !(r.1 && incoming[key].JObject?) ==> r.0 == SetDefault(state, key)
    ensures r.1 && incoming[key].JObject? ==>
      r.0 == SetDefault(state, key)[key := JObject(Update(SetDefault(state, key)[key].fields, incoming[key].fields))]
  {
    var s := SetDefault(state, key);
    if !s[key].JObject? then (s, false)
    else
      match incoming[key]
      case JObject(fields) => (s[key := JObject(Update(s[key].fields, fields))], true)
      case JArray(items) => (s, items == [])
      case JStr(t) => (s, t == "")
      case _ => (s, false)
  }

  /** One section merged, whatever was stored and sent: no top-level key is lost, only `key`
      may be added, and every other key keeps its value. */
  lemma MergeSectionKeeps(state: map<string, Json>, incoming: map<string, Json>, key: string)
    requires key in incoming
    ensures var r := MergeSection(state, incoming, key).0;
      && r.Keys == state.Keys + {key}
      && forall k :: k in state && k != key ==> r[k] == state[k]
  {
    var s := SetDefault(state, key);
    assert s.Keys == state.Keys + {key};
    if MergeSection(state, incoming, key).1 {
      assert MergeSection(state, incoming, key).0.Keys == s.Keys;
    }
  }

  /** One section merged when both are dicts: the keys sent overwrite, the other keys of the
      section and every other top-level key stay as they were. */
  lemma MergeSectionSpec(state: map<string, Json>, incoming: map<string, Json>, key: string)
    requires key in incoming && incoming[key].JObject?
    requires key in state ==> state[key].JObject?
    ensures MergeSection(state, incoming, key).1
    ensures var r := MergeSection(state, incoming, key).0;
      && r.Keys == state.Keys + {key} && r[key].JObject?
      && (forall k :: k in state && k != key ==> r[k] == state[k])
      && (forall f :: f in incoming[key].fields ==> f in r[key].fields && r[key].fields[f] == incoming[key].fields[f])
      && (key in state ==> forall f :: f in state[key].fields && f !in incoming[key].fields ==>
            f in r[key].fields && r[key].fields[f] == state[key].fields[f])
  {
    MergeSectionKeeps(state, incoming, key);
  }

  /** The section of a stored config is a dict, or absent. */
  predicate SectionsAreDicts(state: map<string, Json>) {
    && ("window" in state ==> state["window"].JObject?)
    && ("ui" in state ==> state["ui"].JObject?)
  }

  /** `_last_known_state`, as `load_config` sets it and `sync_state` merges into it. */
  class ConfigStore {
    var state: map<string, Json>

    constructor ()
      ensures state == map[]
    {
      state := map[];
    }

    /** `load_config`: a missing or malformed file gives `{'window': {}, 'ui': {}}`; a parsed
        dict gets `'window'` and `'ui'` added as empty dicts where absent. A parsed value that
        is not a dict, or any other error, raises (`None`) and leaves the state alone. */
    method LoadConfig(file: ConfigFile) returns (config: Option<map<string, Json>>)
      modifies this
      ensures config.Some? <==> file.Missing? || file.Malformed? || (file.Parsed? && file.value.JObject?)
      ensures config.Some? ==> state == config.value && "window" in state && "ui" in state
      ensures config.None? ==> state == old(state)
      ensures (file.Missing? || file.Malformed?) ==> config == Some(map["window" := EmptyObject, "ui" := EmptyObject])
      ensures file.Parsed? && file.value.JObject? ==>
        config == Some(SetDefault(SetDefault(file.value.fields, "window"), "ui"))
    {
      match file
      case Unreadable =>
        return None;
      case Parsed(value) =>
        if !value.JObject? {
          return None;
        }
        var loaded := SetDefault(SetDefault(value.fields, "window"), "ui");
        state := loaded;
        config := Some(loaded);
      case _ =>
        var defaults := map["window" := EmptyObject, "ui" := EmptyObject];
        state := defaults;
        config := Some(defaults);
    }

    /** `sync_state`: the `'window'` section is merged, then the `'ui'` section. `ok` is false
        where Python raises; what was done until then stays, including the section that
        `setdefault` added just before `update` raised. */
    method SyncState(incoming: map<string, Json>) returns (ok: bool)
      modifies this
      ensures (state, ok) == Synced(old(state), incoming)
      ensures "window" in incoming && !MergeSection(old(state), incoming, "window").1 ==>
        !ok && state == SetDefault(old(state), "window")
    {
      ok := true;
      if "window" in incoming {
        var merged := MergeSection(state, incoming, "window");
        state := merged.0;
        if !merged.1 {
          return false;
        }
      }
      if "ui" in incoming {
        var merged := MergeSection(state, incoming, "ui");
        state := merged.0;
        ok := merged.1;
      }
    }
  }

  /** `sync_state` on a state: the state it leaves, and whether it ran to the end. */
  function Synced(state: map<string, Json>, incoming: map<string, Json>): (map<string, Json>, bool) {
    var w := if "window" in incoming then MergeSection(state, incoming, "window") else (state, true);
    if w.1 && "ui" in incoming then MergeSection(w.0, incoming, "ui") else w
  }

  /** A sync, even one that raises, loses no top-level key, adds at most `window` and `ui`,
      and leaves every other key as it was. */
  lemma SyncNeverLoses(state: map<string, Json>, incoming: map<string, Json>)
    ensures var r := Synced(state, incoming).0;
      && state.Keys <= r.Keys <= state.Keys + {"window", "ui"}
      && forall k :: k in state && k != "window" && k != "ui" ==> r[k] == state[k]
  {
    var w := state;
    if "window" in incoming {
      MergeSectionKeeps(state, incoming, "window");
      w := MergeSection(state, incoming, "window").0;
    }
    if Synced(state, incoming).0 != w {
      MergeSectionKeeps(w, incoming, "ui");
    }
  }

  /** The sections a sync may carry are dicts. */
  predicate SectionsSent(incoming: map<string, Json>) {
    && ("window" in incoming ==> incoming["window"].JObject?)
    && ("ui" in incoming ==> incoming["ui"].JObject?)
  }

  /** A sync of dict sections into a state whose sections are dicts succeeds, keeps the
      sections dicts, adds only the sections sent, and leaves every other top-level key as it
      was. */
  lemma SyncKeepsOthers(state: map<string, Json>, incoming: map<string, Json>)
    requires SectionsAreDicts(state) && SectionsSent(incoming)
    ensures Synced(state, incoming).1
    ensures var r := Synced(state, incoming).0;
      && SectionsAreDicts(r) && r.Keys == state.Keys + (incoming.Keys * {"window", "ui"})
      && forall k :: k in state && k != "window" && k != "ui" ==> r[k] == state[k]
  {
    var w := state;
    if "window" in incoming {
      MergeSectionSpec(state, incoming, "window");
      w := MergeSection(state, incoming, "window").0;
    }
    if "ui" in incoming {
      MergeSectionSpec(w, incoming, "ui");
    }
  }

  /** Within a section that was sent, the keys sent overwrite and the others stay. */
  lemma SyncSection(state: map<string, Json>, incoming: map<string, Json>, key: string)
    requires SectionsAreDicts(state) && SectionsSent(incoming)
    requires (key == "window" || key == "ui") && key in incoming
    ensures Synced(state, incoming).1
    ensures var r := Synced(state, incoming).0; var sent := incoming[key].fields;
      && key in r && r[key].JObject?
      && (forall f :: f in sent ==> f in r[key].fields && r[key].fields[f] == sent[f])
      && (key in state ==> forall f :: f in state[key].fields && f !in sent ==>
            f in r[key].fields && r[key].fields[f] == state[key].fields[f])
  {
    SyncKeepsOthers(state, incoming);
    var w := state;
    if "window" in incoming {
      MergeSectionSpec(state, incoming, "window");
      w := MergeSection(state, incoming, "window").0;
    }
    if "ui" in incoming {
      MergeSectionSpec(w, incoming, "ui");
    }
  }
}
