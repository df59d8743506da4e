/** Open-document bookkeeping over layered sources (documents.rs, source_database.rs). */
module Documents {
  import opened Wrappers

  // ---------------------------------------------------------- the source database

  datatype Module = SingleFile(name: string) | Bound(identity: nat)

  /** One source: an editor overlay hides the base text. */
  datatype Document = Document(id: nat, owner: Module, base: Option<string>, overlay: Option<string>)

  /** A file of the current snapshot. */
  datatype File = File(text: string, owner: Module, revision: nat)

  datatype Database = Database(documents: map<string, Document>, files: map<nat, File>, revision: nat, next: nat)

  function Visible(d: Document): Option<string> {
    if d.overlay.Some? then d.overlay else d.base
  }

  /** The snapshot shows of this document exactly its visible text. */
  predicate Shown(db: Database, d: Document) {
    match Visible(d)
    case None => d.id !in db.files
    case Some(text) => d.id in db.files && db.files[d.id].text == text && db.files[d.id].owner == d.owner
  }

  ghost predicate Coherent(db: Database) {
    && (forall key | key in db.documents :: db.documents[key].id < db.next && Shown(db, db.documents[key]))
    && (forall a, b | a in db.documents && b in db.documents && a != b :: db.documents[a].id != db.documents[b].id)
    && (forall id | id in db.files :: id < db.next)
  }

  /** Publishes a document's visible text, with a new revision only if the snapshot has to change. */
  function Refresh(db: Database, d: Document): Database {
    if Shown(db, d) then db
    else
      var revision := db.revision + 1;
      match Visible(d)
      case None => db.(files := map id | id in db.files && id != d.id :: db.files[id], revision := revision)
      case Some(text) => db.(files := db.files[d.id := File(text, d.owner, revision)], revision := revision)
  }

  function Store(db: Database, key: string, d: Document): Database {
    Refresh(db.(documents := db.documents[key := d]), d)
  }

  /** A source may be created unless another source already carries its default module identity. */
  predicate Bindable(db: Database, key: string) {
    key in db.documents || forall other | other in db.documents :: db.documents[other].owner != SingleFile(key)
  }

  /** Sets the overlay of an existing or new source. */
  function SetOverlay(db: Database, key: string, text: string): Database {
    if key in db.documents then Store(db, key, db.documents[key].(overlay := Some(text)))
    else Store(db.(next := db.next + 1), key, Document(db.next, SingleFile(key), None, Some(text)))
  }

  function CloseOverlay(db: Database, key: string): Database {
    if key in db.documents then Store(db, key, db.documents[key].(overlay := None)) else db
  }

  /** Storing a document under its identity keeps the database coherent and every other source as it was. */
  lemma StoreKeeps(db: Database, key: string, d: Document)
    requires Coherent(db) && d.id < db.next
    requires key in db.documents ==> db.documents[key].id == d.id
    requires key !in db.documents ==> forall other | other in db.documents :: db.documents[other].id != d.id
    ensures Coherent(Store(db, key, d)) && Store(db, key, d).documents == db.documents[key := d]
    ensures Store(db, key, d).revision == db.revision <==> Shown(db, d)
    ensures Store(db, key, d).revision <= db.revision + 1
    ensures forall id | id != d.id :: (id in Store(db, key, d).files <==> id in db.files)
    ensures forall id | id != d.id && id in db.files :: Store(db, key, d).files[id] == db.files[id]
  {
    var after := Store(db, key, d);
    forall k | k in after.documents ensures after.documents[k].id < after.next && Shown(after, after.documents[k]) {
      if k != key {
        assert db.documents[k].id != d.id && Shown(db, db.documents[k]);
      }
    }
  }

  // --------------------------------------------------------------- open documents

  datatype OpenDocument = OpenDocument(uri: string, language: string, version: int)

  datatype Content = Content(range: Option<nat>, rangeLength: Option<nat>, text: string)

  /** Document notifications whose parameters were decoded. */
  datatype Edit =
    | Open(uri: string, language: string, version: int, text: string)
    | Change(uri: string, version: int, contents: seq<Content>)
    | Close(uri: string)

  /** How a document URI becomes a source name, and how a database normalises source names. */
  datatype Naming = Naming(fromUri: string -> Option<string>, normalise: string -> Option<string>)

  datatype Workspace = Workspace(source: Database, open: map<nat, OpenDocument>)

  /** The source a URI denotes. */
  function Key(n: Naming, uri: string): Option<string> {
    match n.fromUri(uri)
    case None => None
    case Some(name) => n.normalise(name)
  }

  predicate IsOpen(w: Workspace, key: string) {
    key in w.source.documents && w.source.documents[key].id in w.open
  }

  function VersionOf(w: Workspace, key: string): int
    requires IsOpen(w, key)
  {
    w.open[w.source.documents[key].id].version
  }

  function BaseOf(w: Workspace, key: string): Option<string> {
    if key in w.source.documents then w.source.documents[key].base else None
  }

  /** The text that the current snapshot shows for a source. */
  function TextOf(w: Workspace, key: string): Option<string> {
    if key in w.source.documents && w.source.documents[key].id in w.source.files
    then Some(w.source.files[w.source.documents[key].id].text) else None
  }

  function IdOf(w: Workspace, key: string): Option<nat> {
    if key in w.source.documents then Some(w.source.documents[key].id) else None
  }

  /** Every open document has an overlay, so the snapshot shows what the editor sent. */
  ghost predicate Consistent(w: Workspace) {
    && Coherent(w.source)
    && (forall key | key in w.source.documents :: w.source.documents[key].overlay.Some? || !IsOpen(w, key))
    && (forall id | id in w.open :: id < w.source.next)
  }

  predicate Ranged(contents: seq<Content>) {
    exists k | 0 <= k < |contents| :: contents[k].range.Some? || contents[k].rangeLength.Some?
  }

  /** When an edit is accepted. */
  predicate Accepts(n: Naming, w: Workspace, e: Edit) {
    && Key(n, e.uri).Some?
    && var key := Key(n, e.uri).value;
    match e
    case Open(_, language, _, _) => !IsOpen(w, key) && language == "kagari" && Bindable(w.source, key)
    case Change(_, version, contents) => IsOpen(w, key) && VersionOf(w, key) < version && !Ranged(contents)
    case Close(_) => IsOpen(w, key)
  }

  /** When an open, a change and a close are accepted, by what they carry. */
  lemma AcceptsExactly(n: Naming, w: Workspace, e: Edit, name: string, key: string)
    requires n.fromUri(e.uri) == Some(name) && n.normalise(name) == Some(key)
    ensures var d := w.source.documents;
            var live := key in d && d[key].id in w.open;
            match e
            case Open(_, language, _, _) =>
              Accepts(n, w, e) <==> !live && language == ['k', 'a', 'g', 'a', 'r', 'i']
                                    && (key in d || !exists other :: other in d && d[other].owner == SingleFile(key))
            case Change(_, version, contents) =>
              Accepts(n, w, e) <==> live && w.open[d[key].id].version < version
                                    && forall k | 0 <= k < |contents| :: contents[k].range.None? && contents[k].rangeLength.None?
            case Close(_) => Accepts(n, w, e) <==> live
  {
  }

  /** An edit whose URI names no source is rejected. */
  lemma UnnamedIsRejected(n: Naming, w: Workspace, e: Edit)
    requires n.fromUri(e.uri).None? || n.normalise(n.fromUri(e.uri).value).None?
    ensures !Accepts(n, w, e)
  {
  }

  /** What an accepted edit leaves. */
  function Apply(n: Naming, w: Workspace, e: Edit): Workspace
    requires Accepts(n, w, e)
  {
    var key := Key(n, e.uri).value;
    match e
    case Open(uri, language, version, text) =>
      var source := SetOverlay(w.source, key, text);
      Workspace(source, w.open[source.documents[key].id := OpenDocument(uri, language, version)])
    case Change(_, version, contents) =>
      var id := w.source.documents[key].id;
      var source := if contents == [] then w.source else SetOverlay(w.source, key, contents[|contents| - 1].text);
      Workspace(source, w.open[id := w.open[id].(version := version)])
    case Close(_) =>
      var id := w.source.documents[key].id;
      Workspace(CloseOverlay(w.source, key), map other | other in w.open && other != id :: w.open[other])
  }

  /** All other sources and open documents stay as they were. */
  ghost predicate OthersKept(w: Workspace, after: Workspace, key: string) {
    forall other | other != key ::
      && IsOpen(after, other) == IsOpen(w, other) && TextOf(after, other) == TextOf(w, other)
      && (IsOpen(w, other) && IsOpen(after, other) ==> VersionOf(after, other) == VersionOf(w, other))
  }

  /** Base texts never change, and a source keeps its identity for good. */
  ghost predicate LayersKept(w: Workspace, after: Workspace) {
    forall key :: BaseOf(after, key) == BaseOf(w, key) && (IdOf(w, key).Some? ==> IdOf(after, key) == IdOf(w, key))
  }

  lemma SetOverlayKeeps(db: Database, key: string, text: string)
    requires Coherent(db)
    ensures var after := SetOverlay(db, key, text);
            && Coherent(after) && key in after.documents && Visible(after.documents[key]) == Some(text)
            && (key in db.documents ==> after.documents[key] == db.documents[key].(overlay := Some(text)) && after.next == db.next)
            && (key !in db.documents ==> after.documents[key] == Document(db.next, SingleFile(key), None, Some(text)) && after.next == db.next + 1)
            && after.documents == db.documents[key := after.documents[key]]
            && FilesKept(db, after, after.documents[key].id)
  {
    if key in db.documents {
      StoreKeeps(db, key, db.documents[key].(overlay := Some(text)));
    } else {
      StoreKeeps(db.(next := db.next + 1), key, Document(db.next, SingleFile(key), None, Some(text)));
    }
  }

  ghost predicate FilesKept(db: Database, after: Database, id: nat) {
    forall other | other != id ::
      && (other in after.files <==> other in db.files)
      && (other in db.files && other in after.files ==> after.files[other] == db.files[other])
  }

  /** A stored document and an updated table of open documents touch one source only. */
  lemma OneSourceTouched(w: Workspace, after: Workspace, key: string)
    requires Consistent(w) && Coherent(after.source) && key in after.source.documents
    requires after.source.documents == w.source.documents[key := after.source.documents[key]]
    requires FilesKept(w.source, after.source, after.source.documents[key].id)
    requires forall id | id != after.source.documents[key].id ::
               && (id in after.open <==> id in w.open)
               && (id in w.open && id in after.open ==> after.open[id] == w.open[id])
    ensures OthersKept(w, after, key)
  {
  }

  lemma OpenEffects(n: Naming, w: Workspace, e: Edit)
    requires Consistent(w) && e.Open? && Accepts(n, w, e)
    ensures var key, after := Key(n, e.uri).value, Apply(n, w, e);
            && Consistent(after) && OthersKept(w, after, key) && LayersKept(w, after)
            && IsOpen(after, key) && VersionOf(after, key) == e.version && TextOf(after, key) == Some(e.text)
  {
    var key, after := Key(n, e.uri).value, Apply(n, w, e);
    SetOverlayKeeps(w.source, key, e.text);
    OneSourceTouched(w, after, key);
  }

  lemma ChangeEffects(n: Naming, w: Workspace, e: Edit)
    requires Consistent(w) && e.Change? && Accepts(n, w, e)
    ensures var key, after := Key(n, e.uri).value, Apply(n, w, e);
            && Consistent(after) && OthersKept(w, after, key) && LayersKept(w, after)
            && IsOpen(after, key) && VersionOf(w, key) < VersionOf(after, key) == e.version
            && TextOf(after, key) == if e.contents == [] then TextOf(w, key) else Some(e.contents[|e.contents| - 1].text)
  {
    var key, after := Key(n, e.uri).value, Apply(n, w, e);
    if e.contents != [] {
      SetOverlayKeeps(w.source, key, e.contents[|e.contents| - 1].text);
    } else {
      assert w.source.documents == w.source.documents[key := w.source.documents[key]];
    }
    OneSourceTouched(w, after, key);
  }

  /** Closing restores the base text, or removes the source from the snapshot if it has none. */
  lemma CloseEffects(n: Naming, w: Workspace, e: Edit)
    requires Consistent(w) && e.Close? && Accepts(n, w, e)
    ensures var key, after := Key(n, e.uri).value, Apply(n, w, e);
            && Consistent(after) && OthersKept(w, after, key) && LayersKept(w, after)
            && !IsOpen(after, key) && TextOf(after, key) == BaseOf(w, key)
  {
    var key, after := Key(n, e.uri).value, Apply(n, w, e);
    StoreKeeps(w.source, key, w.source.documents[key].(overlay := None));
    OneSourceTouched(w, after, key);
  }

  /** The snapshot gets a new revision exactly when an accepted edit changes the text it shows. */
  lemma RevisionTracksText(n: Naming, w: Workspace, e: Edit)
    requires Consistent(w) && Accepts(n, w, e)
    ensures var key, after := Key(n, e.uri).value, Apply(n, w, e);
            after.source.revision == w.source.revision <==> TextOf(after, key) == TextOf(w, key)
  {
    var key, db := Key(n, e.uri).value, w.source;
    match e
    case Open(_, _, _, text) =>
      OpenEffects(n, w, e);
      if key in db.documents {
        StoreKeeps(db, key, db.documents[key].(overlay := Some(text)));
      } else {
        StoreKeeps(db.(next := db.next + 1), key, Document(db.next, SingleFile(key), None, Some(text)));
      }
    case Change(_, _, contents) =>
      ChangeEffects(n, w, e);
      if contents != [] {
        StoreKeeps(db, key, db.documents[key].(overlay := Some(contents[|contents| - 1].text)));
      }
    case Close(_) =>
      CloseEffects(n, w, e);
      StoreKeeps(db, key, db.documents[key].(overlay := None));
  }

  // ------------------------------------------------------------------ the object

  class OpenDocuments {
    const naming: Naming
    var source: Database
    var open: map<nat, OpenDocument>

    function View(): Workspace
      reads this
    {
      Workspace(source, open)
    }

    constructor (naming: Naming, source: Database)
      ensures this.naming == naming && View() == Workspace(source, map[])
    {
      this.naming, this.source, this.open := naming, source, map[];
    }

    /** `SourceDatabase::file_id`. */
    method FileId(name: string) returns (id: Option<nat>)
      ensures id == match naming.normalise(name) case None => None case Some(key) => IdOf(View(), key)
    {
      match naming.normalise(name) {
        case None => return None;
        case Some(key) => return if key in source.documents then Some(source.documents[key].id) else None;
      }
    }

    /** `SourceDatabase::set` on the overlay layer; a refusal changes nothing. */
    method SetText(name: string, text: string) returns (id: Option<nat>)
      modifies this`source
      ensures match naming.normalise(name)
              case None => id == None && source == old(source)
              case Some(key) =>
                if Bindable(old(source), key) then source == SetOverlay(old(source), key, text) && id == IdOf(View(), key)
                else id == None && source == old(source)
    {
      match naming.normalise(name) {
        case None => return None;
        case Some(key) =>
          if key !in source.documents && exists other | other in source.documents :: source.documents[other].owner == SingleFile(key) {
            return None;
          }
          source := SetOverlay(source, key, text);
          return Some(source.documents[key].id);
      }
    }

    method DidOpen(uri: string, language: string, version: int, text: string) returns (accepted: bool)
      modifies this
      ensures accepted == Accepts(naming, old(View()), Open(uri, language, version, text))
      ensures View() == if accepted then Apply(naming, old(View()), Open(uri, language, version, text)) else old(View())
    {
      var name := naming.fromUri(uri);
      if name.None? {
        return false;
      }
      var known := FileId(name.value);
      if known.Some? && known.value in open {
        return false;
      }
      if language != "kagari" {
        return false;
      }
      var id := SetText(name.value, text);
      if id.None? {
        return false;
      }
      open := open[id.value := OpenDocument(uri, language, version)];
      return true;
    }

    method DidChange(uri: string, version: int, contents: seq<Content>) returns (accepted: bool)
      modifies this
      ensures accepted == Accepts(naming, old(View()), Change(uri, version, contents))
      ensures View() == if accepted then Apply(naming, old(View()), Change(uri, version, contents)) else old(View())
    {
      var name := naming.fromUri(uri);
      if name.None? {
        return false;
      }
      var known := FileId(name.value);
      if known.None? || known.value !in open {
        return false;
      }
      var id := known.value;
      if version <= open[id].version {
        return false;
      }
      if Ranged(contents) {
        return false;
      }
      if contents != [] {
        var written := SetText(name.value, contents[|contents| - 1].text);
        if written.None? {
          return false;
        }
      }
      open := open[id := open[id].(version := version)];
      return true;
    }

    method DidClose(uri: string) returns (accepted: bool)
      modifies this
      ensures accepted == Accepts(naming, old(View()), Close(uri))
      ensures View() == if accepted then Apply(naming, old(View()), Close(uri)) else old(View())
    {
      var name := naming.fromUri(uri);
      if name.None? {
        return false;
      }
      var known := FileId(name.value);
      if known.None? || known.value !in open {
        return false;
      }
      var key := naming.normalise(name.value);
      if key.None? {
        return false;
      }
      source := CloseOverlay(source, key.value);
      open := map other | other in open && other != known.value :: open[other];
      return true;
    }
  }
}
