/** `compute_components` and `get_component_extension` of
    src/website_parser.rs. The directory walk and the file reads are I/O: the
    walk is given as the sequence of entries it yields, each carrying what
    reading it produced. */
module WebsiteParser {
  import opened Wrappers
  import opened Registry

  /** An `OsStr`, which may or may not be valid UTF-8. */
  datatype OsStr = Utf8(text: string) | NotUtf8

  datatype ComponentExtension = Xml | Css | Invalid

  /** Case-sensitive: only the exact strings `html`, `xml` and `css` are recognised. */
  function GetComponentExtension(extension: OsStr): (r: ComponentExtension)
    ensures r == Xml <==> extension == Utf8("html") || extension == Utf8("xml")
    ensures r == Css <==> extension == Utf8("css")
    ensures extension.NotUtf8? ==> r == Invalid
  {
    match extension
    case NotUtf8 => Invalid
    case Utf8(s) =>
      if s == "html" || s == "xml" then Xml
      else if s == "css" then Css
      else Invalid
  }

  /** One item yielded by the directory walk: an error, a directory, or a file
      with its stem, its extension (if any) and its contents (`None` when
      reading it failed). */
  datatype WalkEntry =
    | WalkError
    | Directory
    | File(stem: OsStr, extension: Option<OsStr>, contents: Option<string>)

  /** What the loop body does with one entry: `continue` without touching the
      store, return `None` from the whole function (a stem that is not UTF-8),
      or make one registration call. */
  datatype Action = Skip | Abort | Apply(op: Registration)

  function Classify(entry: WalkEntry): (a: Action)
    ensures a.Abort? <==> entry.File? && entry.extension.Some? && entry.stem.NotUtf8?
    ensures a.Apply? <==> entry.File? && entry.extension.Some? && entry.stem.Utf8? && entry.contents.Some?
                          && GetComponentExtension(entry.extension.value) != Invalid
    ensures a.Apply? ==> a.op.name == entry.stem.text && a.op.data == entry.contents.value
    ensures a.Apply? ==> (a.op.RegisterXml? <==> GetComponentExtension(entry.extension.value) == Xml)
  {
    match entry
    case WalkError => Skip
    case Directory => Skip
    case File(stem, extension, contents) =>
      match extension
      case None => Skip
      case Some(x) =>
        var kind := GetComponentExtension(x);
        match stem
        case NotUtf8 => Abort
        case Utf8(name) =>
          match contents
          case None => Skip
          case Some(data) =>
            match kind
            case Xml => Apply(RegisterXml(name, data))
            case Css => Apply(RegisterCss(name, data))
            case Invalid => Skip
  }

  /** The registration calls a walk gives rise to, in walk order. */
  function Registrations(entries: seq<WalkEntry>): (ops: seq<Registration>)
    ensures |ops| <= |entries|
    ensures forall op :: op in ops ==> exists i :: 0 <= i < |entries| && Classify(entries[i]) == Apply(op)
    decreases |entries|
  {
    if entries == [] then []
    else
      var rest := Registrations(entries[1..]);
      assert forall i :: 0 <= i < |entries[1..]| ==> entries[1..][i] == entries[i + 1];
      match Classify(entries[0])
      case Apply(op) => [op] + rest
      case _ => rest
  }

  /** The loop of `compute_components`, continued from store `s`. */
  function ComputeFrom(valid: string -> bool, s: ComponentStore, entries: seq<WalkEntry>): (r: Option<ComponentStore>)
    ensures r.None? <==> exists i :: 0 <= i < |entries| && Classify(entries[i]).Abort?
    ensures r.Some? ==> r.value == RegisterAll(valid, s, Registrations(entries))
    decreases |entries|
  {
    if entries == [] then Some(s)
    else
      assert forall i :: 1 <= i < |entries| ==> entries[1..][i - 1] == entries[i];
      match Classify(entries[0])
      case Abort => None
      case Skip => ComputeFrom(valid, s, entries[1..])
      case Apply(op) =>
        assert RegisterAll(valid, s, [op] + Registrations(entries[1..]))
               == RegisterAll(valid, Register(valid, s, op).store, Registrations(entries[1..])) by {
          assert ([op] + Registrations(entries[1..]))[1..] == Registrations(entries[1..]);
        }
        ComputeFrom(valid, Register(valid, s, op).store, entries[1..])
  }

  /** `compute_components`: `xmlParses` says which texts roxmltree accepts. */
  function ComputeComponents(xmlParses: string -> bool, entries: seq<WalkEntry>): (r: Option<ComponentStore>)
    ensures r.None? <==> exists i :: 0 <= i < |entries| && Classify(entries[i]).Abort?
  {
    ComputeFrom(xmlParses, EmptyStore, entries)
  }

  /** The store returned is a registry: ids are distinct and below the counter. */
  lemma ComputeComponentsValid(xmlParses: string -> bool, entries: seq<WalkEntry>)
    ensures var r := ComputeComponents(xmlParses, entries);
            r.Some? ==> Valid(r.value) && r.value.components.Keys == NamesOf(Registrations(entries))
  {
    RegisterAllValid(xmlParses, EmptyStore, Registrations(entries));
    RegisterAllKeys(xmlParses, EmptyStore, Registrations(entries));
  }

  function NamesOf(ops: seq<Registration>): set<string> {
    set i | 0 <= i < |ops| :: ops[i].name
  }

  /** Every registration call leaves its name in the map, whether it returned
      `Ok` or not, and nothing else enters it. */
  lemma {:induction false} RegisterAllKeys(valid: string -> bool, s: ComponentStore, ops: seq<Registration>)
    ensures RegisterAll(valid, s, ops).components.Keys == s.components.Keys + NamesOf(ops)
    decreases |ops|
  {
    if ops != [] {
      var s1 := Register(valid, s, ops[0]).store;
      RegisterAllKeys(valid, s1, ops[1..]);
      assert NamesOf(ops) == {ops[0].name} + NamesOf(ops[1..]) by {
        forall n | n in NamesOf(ops) ensures n in {ops[0].name} + NamesOf(ops[1..]) {
          var i :| 0 <= i < |ops| && ops[i].name == n;
          if i > 0 { assert ops[1..][i - 1] == ops[i]; }
        }
        forall n | n in NamesOf(ops[1..]) ensures n in NamesOf(ops) {
          var i :| 0 <= i < |ops[1..]| && ops[1..][i].name == n;
          assert ops[i + 1].name == n;
        }
      }
    }
  }

  /** Entries that are skipped (errors, directories, files without an
      extension, unreadable files, unknown extensions) leave the outcome as if
      they were not there, wherever they occur in the walk. */
  lemma {:induction false} SkippedEntriesAreInert(valid: string -> bool, s: ComponentStore,
                                                  before: seq<WalkEntry>, e: WalkEntry, after: seq<WalkEntry>)
    requires Classify(e).Skip?
    ensures ComputeFrom(valid, s, before + [e] + after) == ComputeFrom(valid, s, before + after)
    decreases |before|
  {
    if before == [] {
      assert before + [e] + after == [e] + after;
      assert ([e] + after)[1..] == after;
      assert before + after == after;
    } else {
      assert (before + [e] + after)[0] == before[0] && (before + after)[0] == before[0];
      assert (before + [e] + after)[1..] == before[1..] + [e] + after;
      assert (before + after)[1..] == before[1..] + after;
      match Classify(before[0])
      case Abort =>
      case Skip => SkippedEntriesAreInert(valid, s, before[1..], e, after);
      case Apply(op) => SkippedEntriesAreInert(valid, Register(valid, s, op).store, before[1..], e, after);
    }
  }
}
