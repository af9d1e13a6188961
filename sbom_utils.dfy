/**
 * The SBOM rewriting of the re-signing script: which files of the local
 * repository are SBOMs, and how the old version is replaced by the new one
 * in each of them — in the known CycloneDX and SPDX fields, in every
 * reference field and "version" field at any depth, by a final text pass
 * over the serialised JSON, and by plain text replacement for files that
 * are not JSON objects.
 *
 * The files of the repository are a map from path to text, `json.loads`
 * is a parameter (`None` for a decoding error) and so is `json.dump`
 * with its indentation.
 */
module SbomUtils {
  import opened Py
  import opened Json

  // Finding SBOM files

  /** The name suffixes searched for: `rglob("*" + suffix)` for each, JSON ones first. */
  const SbomSuffixes: seq<string> :=
    [".sbom.json", "-sbom.json", ".bom.json", ".cyclonedx.json", "-cyclonedx.json", ".spdx.json",
     ".cyclonedx.xml", "-cyclonedx.xml"]

  /** `rglob("*" + suffix)`: the paths, in walk order, whose last component ends with the suffix. */
  function Glob(paths: seq<string>, suffix: string): (r: seq<string>)
    ensures forall p :: p in r <==> p in paths && EndsWith(Basename(p), suffix)
    decreases |paths|
  {
    if |paths| == 0 then []
    else
      var rest := Glob(paths[1..], suffix);
      assert forall p :: p in paths <==> p == paths[0] || p in paths[1..];
      if EndsWith(Basename(paths[0]), suffix) then [paths[0]] + rest else rest
  }

  /** The list built by extending with each search in turn, duplicates included. */
  function Collected(paths: seq<string>, suffixes: seq<string>): (r: seq<string>)
    ensures forall p :: p in r <==> p in paths && exists x :: x in suffixes && EndsWith(Basename(p), x)
    decreases |suffixes|
  {
    if |suffixes| == 0 then []
    else
      assert forall x :: x in suffixes <==> x == suffixes[0] || x in suffixes[1..];
      Glob(paths, suffixes[0]) + Collected(paths, suffixes[1..])
  }

  predicate IsSbomName(name: string) {
    exists x :: x in SbomSuffixes && EndsWith(name, x)
  }

  /** `find_sbom_files`: the searches' results with duplicates removed, in no particular order. */
  function FindSbomFiles(paths: seq<string>): set<string> {
    set p | p in Collected(paths, SbomSuffixes)
  }

  /** A path is found exactly when it is under the directory and its name has one of the SBOM suffixes; it is found once. */
  lemma SbomFilesAreTheMatchingPaths(paths: seq<string>, p: string)
    ensures p in FindSbomFiles(paths) <==> p in paths && IsSbomName(Basename(p))
    ensures |FindSbomFiles(paths)| <= |paths|
  {
    var found := FindSbomFiles(paths);
    assert found <= set q | q in paths;
    SetOfSeqSize(paths);
    SubsetSize(found, set q | q in paths);
  }

  lemma {:induction false} SetOfSeqSize(s: seq<string>)
    ensures |set q | q in s| <= |s|
    decreases |s|
  {
    if |s| > 0 {
      SetOfSeqSize(s[1..]);
      assert (set q | q in s) == (set q | q in s[1..]) + {s[0]};
    }
  }

  lemma SubsetSize(a: set<string>, b: set<string>)
    requires a <= b
    ensures |a| <= |b|
  {
    assert b == a + (b - a);
  }

  // The fields known to carry the version

  /** A dict whose "version" is the old version. */
  predicate HasVersion(v: Json, oldVersion: string) {
    v.JObj? && Lookup(v.fields, "version") == Some(JStr(oldVersion))
  }

  /** `component['version'] = new` for a dict whose version is the old one; anything else is left alone. */
  function SetVersion(v: Json, oldVersion: string, newVersion: string): (r: Json)
    ensures HasVersion(v, oldVersion) ==>
              && r.JObj? && Lookup(r.fields, "version") == Some(JStr(newVersion))
              && forall k :: k != "version" ==> Lookup(r.fields, k) == Lookup(v.fields, k)
    ensures !HasVersion(v, oldVersion) ==> r == v
  {
    if HasVersion(v, oldVersion) then JObj(Assign(v.fields, "version", JStr(newVersion))) else v
  }

  /** `metadata.component.version`, when metadata is a dict holding a component. */
  function MetadataStep(fields: seq<(string, Json)>, oldVersion: string, newVersion: string): (seq<(string, Json)>, bool) {
    match Lookup(fields, "metadata")
    case Some(JObj(meta)) =>
      (match Lookup(meta, "component")
       case Some(c) =>
         if HasVersion(c, oldVersion)
         then (Assign(fields, "metadata", JObj(Assign(meta, "component", SetVersion(c, oldVersion, newVersion)))), true)
         else (fields, false)
       case None => (fields, false))
    case _ => (fields, false)
  }

  /** Each dict item of the list under `key` whose version is the old one. */
  function ListStep(fields: seq<(string, Json)>, key: string, oldVersion: string, newVersion: string): (seq<(string, Json)>, bool) {
    match Lookup(fields, key)
    case Some(JArr(items)) =>
      if exists i :: 0 <= i < |items| && HasVersion(items[i], oldVersion)
      then (Assign(fields, key, JArr(seq(|items|, i requires 0 <= i < |items| => SetVersion(items[i], oldVersion, newVersion)))), true)
      else (fields, false)
    case _ => (fields, false)
  }

  /** A `documentDescribes` entry: a string holding the old version has it replaced. */
  function DescribedRef(ref: Json, oldVersion: string, newVersion: string): Json {
    if ref.JStr? && Contains(ref.s, oldVersion) then JStr(Replace(ref.s, oldVersion, newVersion)) else ref
  }

  predicate DescribesOld(ref: Json, oldVersion: string) {
    ref.JStr? && Contains(ref.s, oldVersion)
  }

  /** The `documentDescribes` list rewritten entry by entry, and whether an entry was. */
  method RewriteDescribes(refs: seq<Json>, oldVersion: string, newVersion: string) returns (r: seq<Json>, updated: bool)
    ensures |r| == |refs|
    ensures forall i :: 0 <= i < |refs| ==> r[i] == DescribedRef(refs[i], oldVersion, newVersion)
    ensures forall i :: 0 <= i < |refs| && !refs[i].JStr? ==> r[i] == refs[i]
    ensures updated <==> exists i :: 0 <= i < |refs| && DescribesOld(refs[i], oldVersion)
  {
    r := refs;
    updated := false;
    for i := 0 to |refs|
      invariant |r| == |refs|
      invariant forall k :: 0 <= k < i ==> r[k] == DescribedRef(refs[k], oldVersion, newVersion)
      invariant forall k :: i <= k < |refs| ==> r[k] == refs[k]
      invariant updated <==> exists k :: 0 <= k < i && DescribesOld(refs[k], oldVersion)
    {
      if refs[i].JStr? && Contains(refs[i].s, oldVersion) {
        r := r[i := JStr(Replace(refs[i].s, oldVersion, newVersion))];
        updated := true;
      }
    }
  }

  /** The `documentDescribes` step, when it is a list. */
  function DescribesStep(fields: seq<(string, Json)>, oldVersion: string, newVersion: string): (seq<(string, Json)>, bool) {
    match Lookup(fields, "documentDescribes")
    case Some(JArr(refs)) =>
      if exists i :: 0 <= i < |refs| && DescribesOld(refs[i], oldVersion)
      then (Assign(fields, "documentDescribes",
                   JArr(seq(|refs|, i requires 0 <= i < |refs| => DescribedRef(refs[i], oldVersion, newVersion)))), true)
      else (fields, false)
    case _ => (fields, false)
  }

  /** The four known places, in the order they are visited, and whether any of them was updated. */
  function KnownFields(fields: seq<(string, Json)>, oldVersion: string, newVersion: string): (seq<(string, Json)>, bool) {
    var metadata := MetadataStep(fields, oldVersion, newVersion);
    var components := ListStep(metadata.0, "components", oldVersion, newVersion);
    var packages := ListStep(components.0, "packages", oldVersion, newVersion);
    var describes := DescribesStep(packages.0, oldVersion, newVersion);
    (describes.0, metadata.1 || components.1 || packages.1 || describes.1)
  }

  /**
   * Every component and package whose version is the old one carries the
   * new one afterwards, and the others are left as they were.
   */
  lemma ListItemsVersioned(fields: seq<(string, Json)>, key: string, items: seq<Json>, oldVersion: string, newVersion: string)
    requires Lookup(fields, key) == Some(JArr(items))
    ensures var r := ListStep(fields, key, oldVersion, newVersion);
            && Lookup(r.0, key).Some? && Lookup(r.0, key).value.JArr?
            && |Lookup(r.0, key).value.items| == |items|
            && (forall i :: 0 <= i < |items| && HasVersion(items[i], oldVersion) ==>
                  Lookup(Lookup(r.0, key).value.items[i].fields, "version") == Some(JStr(newVersion)))
            && (forall i :: 0 <= i < |items| && !HasVersion(items[i], oldVersion) ==> Lookup(r.0, key).value.items[i] == items[i])
            && (forall k :: k != key ==> Lookup(r.0, k) == Lookup(fields, k))
            && (r.1 <==> exists i :: 0 <= i < |items| && HasVersion(items[i], oldVersion))
  {
  }

  // The recursive pass

  /** Keys whose string values are references: "bom-ref", "purl", "ref", or any ending in "ref", in any case. */
  predicate IsRefKey(key: string) {
    var k := Lower(key);
    k == "bom-ref" || k == "purl" || k == "ref" || EndsWith(k, "ref")
  }

  /** One dict value of the recursive pass, under its key. */
  function RefValue(key: string, value: Json, oldVersion: string, newVersion: string): Json
    decreases value, 1
  {
    match value
    case JStr(s) =>
      if IsRefKey(key) then (if Contains(s, oldVersion) then JStr(Replace(s, oldVersion, newVersion)) else value)
      else if Lower(key) == "version" then (if s == oldVersion then JStr(newVersion) else value)
      else value
    case JObj(_) => References(value, oldVersion, newVersion)
    case JArr(_) => References(value, oldVersion, newVersion)
    case _ => value
  }

  /**
   * `update_all_version_references`, as the value it leaves behind:
   * dicts have their values rewritten key by key, lists item by item, and
   * anything else, a bare string in a list included, is left as it is.
   */
  function References(v: Json, oldVersion: string, newVersion: string): Json
    decreases v, 0
  {
    match v
    case JObj(fields) =>
      JObj(seq(|fields|, i requires 0 <= i < |fields| => (fields[i].0, RefValue(fields[i].0, fields[i].1, oldVersion, newVersion))))
    case JArr(items) =>
      JArr(seq(|items|, i requires 0 <= i < |items| => References(items[i], oldVersion, newVersion)))
    case _ => v
  }

  /** Whether the pass sets `updated` on one dict value. */
  predicate RefTouched(key: string, value: Json, oldVersion: string)
    decreases value, 1
  {
    match value
    case JStr(s) => if IsRefKey(key) then Contains(s, oldVersion) else Lower(key) == "version" && s == oldVersion
    case JObj(_) => Touched(value, oldVersion)
    case JArr(_) => Touched(value, oldVersion)
    case _ => false
  }

  /** Whether the pass sets `updated` anywhere inside `v`. */
  predicate Touched(v: Json, oldVersion: string)
    decreases v, 0
  {
    match v
    case JObj(fields) => exists i :: 0 <= i < |fields| && RefTouched(fields[i].0, fields[i].1, oldVersion)
    case JArr(items) => exists i :: 0 <= i < |items| && Touched(items[i], oldVersion)
    case _ => false
  }

  /**
   * The recursive pass as the code runs it: a loop over the dict's items
   * or the list's items, recursing into nested dicts and lists and
   * raising the `updated` flag at each replacement.
   */
  method UpdateAllVersionReferences(v: Json, oldVersion: string, newVersion: string) returns (r: Json, updated: bool)
    ensures r == References(v, oldVersion, newVersion)
    ensures updated == Touched(v, oldVersion)
    decreases v
  {
    match v {
      case JObj(fields) =>
        var out: seq<(string, Json)> := [];
        updated := false;
        for i := 0 to |fields|
          invariant |out| == i
          invariant forall k :: 0 <= k < i ==> out[k] == (fields[k].0, RefValue(fields[k].0, fields[k].1, oldVersion, newVersion))
          invariant updated <==> exists k :: 0 <= k < i && RefTouched(fields[k].0, fields[k].1, oldVersion)
        {
          var key := fields[i].0;
          var value := fields[i].1;
          var next := value;
          var touched := false;
          if value.JStr? {
            if IsRefKey(key) {
              if Contains(value.s, oldVersion) {
                next := JStr(Replace(value.s, oldVersion, newVersion));
                touched := true;
              }
            } else if Lower(key) == "version" {
              if value.s == oldVersion {
                next := JStr(newVersion);
                touched := true;
              }
            }
          } else if value.JObj? || value.JArr? {
            assert fields[i] in fields;
            next, touched := UpdateAllVersionReferences(value, oldVersion, newVersion);
          }
          out := out + [(key, next)];
          updated := updated || touched;
        }
        r := JObj(out);
      case JArr(items) =>
        var out: seq<Json> := [];
        updated := false;
        for i := 0 to |items|
          invariant |out| == i
          invariant forall k :: 0 <= k < i ==> out[k] == References(items[k], oldVersion, newVersion)
          invariant updated <==> exists k :: 0 <= k < i && Touched(items[k], oldVersion)
        {
          assert items[i] in items;
          var next, touched := UpdateAllVersionReferences(items[i], oldVersion, newVersion);
          out := out + [next];
          updated := updated || touched;
        }
        r := JArr(out);
      case _ =>
        r := v;
        updated := false;
    }
  }

  /** The flag is raised whenever the pass changed anything: an untouched value comes out as it went in. */
  lemma {:induction false} UntouchedUnchanged(v: Json, oldVersion: string, newVersion: string)
    requires !Touched(v, oldVersion)
    ensures References(v, oldVersion, newVersion) == v
    decreases v, 0
  {
    match v
    case JObj(fields) =>
      forall i | 0 <= i < |fields|
        ensures RefValue(fields[i].0, fields[i].1, oldVersion, newVersion) == fields[i].1
      {
        assert fields[i] in fields;
        RefValueUntouched(fields[i].0, fields[i].1, oldVersion, newVersion);
      }
      assert References(v, oldVersion, newVersion).fields == fields;
    case JArr(items) =>
      forall i | 0 <= i < |items|
        ensures References(items[i], oldVersion, newVersion) == items[i]
      {
        assert items[i] in items;
        UntouchedUnchanged(items[i], oldVersion, newVersion);
      }
      assert References(v, oldVersion, newVersion).items == items;
    case _ =>
  }

  lemma {:induction false} RefValueUntouched(key: string, value: Json, oldVersion: string, newVersion: string)
    requires !RefTouched(key, value, oldVersion)
    ensures RefValue(key, value, oldVersion, newVersion) == value
    decreases value, 1
  {
    if value.JObj? || value.JArr? {
      UntouchedUnchanged(value, oldVersion, newVersion);
    }
  }

  /** No "version" field at any depth is left holding the old version after the pass (when the versions differ). */
  predicate NoOldVersionField(v: Json, oldVersion: string)
    decreases v
  {
    match v
    case JObj(fields) =>
      forall i :: 0 <= i < |fields| ==>
        && (Lower(fields[i].0) == "version" && fields[i].1.JStr? ==> fields[i].1.s != oldVersion)
        && NoOldVersionField(fields[i].1, oldVersion)
    case JArr(items) => forall i :: 0 <= i < |items| ==> NoOldVersionField(items[i], oldVersion)
    case _ => true
  }

  lemma VersionIsNotRefKey(key: string)
    requires Lower(key) == "version"
    ensures !IsRefKey(key)
  {
    assert Lower(key)[4..] != "ref" by { assert "version"[4] == 'i'; }
  }

  lemma {:induction false} PassLeavesNoOldVersionField(v: Json, oldVersion: string, newVersion: string)
    requires oldVersion != newVersion
    ensures NoOldVersionField(References(v, oldVersion, newVersion), oldVersion)
    decreases v
  {
    match v
    case JObj(fields) =>
      var r := References(v, oldVersion, newVersion);
      forall i | 0 <= i < |r.fields|
        ensures Lower(r.fields[i].0) == "version" && r.fields[i].1.JStr? ==> r.fields[i].1.s != oldVersion
        ensures NoOldVersionField(r.fields[i].1, oldVersion)
      {
        assert fields[i] in fields;
        assert r.fields[i] == (fields[i].0, RefValue(fields[i].0, fields[i].1, oldVersion, newVersion));
        if Lower(fields[i].0) == "version" {
          VersionIsNotRefKey(fields[i].0);
        }
        if fields[i].1.JObj? || fields[i].1.JArr? {
          PassLeavesNoOldVersionField(fields[i].1, oldVersion, newVersion);
        }
      }
    case JArr(items) =>
      var r := References(v, oldVersion, newVersion);
      forall i | 0 <= i < |items|
        ensures NoOldVersionField(r.items[i], oldVersion)
      {
        assert items[i] in items;
        PassLeavesNoOldVersionField(items[i], oldVersion, newVersion);
      }
    case _ =>
  }

  // One file

  /** What happens to one SBOM file: nothing, a JSON dump of new data, or new text. */
  datatype Write = NoWrite | WriteJson(data: Json) | WriteText(text: string)

  /** Plain text replacement, only when the old version occurs. */
  function TextReplacement(content: string, oldVersion: string, newVersion: string): Write {
    if Contains(content, oldVersion) then WriteText(Replace(content, oldVersion, newVersion)) else NoWrite
  }

  /**
   * The rewrite of one file's text. A JSON dict goes through the known
   * fields, the recursive pass and the text pass over `json.dumps`; if the
   * text pass produces text that no longer parses, the decoding error
   * falls through to the text replacement of the original content. Other
   * JSON values, and text that is not JSON, get the text replacement.
   */
  function UpdateFile(content: string, oldVersion: string, newVersion: string, loads: string -> Option<Json>): Write {
    match loads(content)
    case None => TextReplacement(content, oldVersion, newVersion)
    case Some(data) =>
      if !data.JObj? then TextReplacement(content, oldVersion, newVersion)
      else
        var known := KnownFields(data.fields, oldVersion, newVersion);
        var passed := References(JObj(known.0), oldVersion, newVersion);
        var updated := known.1 || Touched(JObj(known.0), oldVersion);
        var text := Dumps(passed);
        if Contains(text, oldVersion) then
          match loads(Replace(text, oldVersion, newVersion))
          case None => TextReplacement(content, oldVersion, newVersion)
          case Some(reparsed) => WriteJson(reparsed)
        else if updated then WriteJson(passed)
        else NoWrite
  }

  /**
   * A JSON dict is written back only when something was updated: a known
   * field, the recursive pass, or the text pass; and then it is written
   * as JSON, never as the original text with replacements.
   */
  lemma DictRewrittenOnlyWhenUpdated(content: string, fields: seq<(string, Json)>, oldVersion: string, newVersion: string,
                                     loads: string -> Option<Json>)
    requires loads(content) == Some(JObj(fields))
    ensures var known := KnownFields(fields, oldVersion, newVersion);
            var passed := References(JObj(known.0), oldVersion, newVersion);
            var w := UpdateFile(content, oldVersion, newVersion, loads);
            && (w != NoWrite ==> known.1 || Touched(JObj(known.0), oldVersion) || Contains(Dumps(passed), oldVersion))
            && (w.WriteText? ==> loads(Replace(Dumps(passed), oldVersion, newVersion)).None? && Contains(content, oldVersion))
            && (!Contains(Dumps(passed), oldVersion) && w.WriteJson? ==> w.data == passed)
  {
  }

  /**
   * A file that is not JSON, or whose JSON is not a dict, is rewritten
   * exactly when the old version occurs in its text, with every
   * occurrence replaced.
   */
  lemma OtherFilesTextReplaced(content: string, oldVersion: string, newVersion: string, loads: string -> Option<Json>)
    requires loads(content).None? || !loads(content).value.JObj?
    ensures UpdateFile(content, oldVersion, newVersion, loads) != NoWrite <==> Contains(content, oldVersion)
    ensures Contains(content, oldVersion) ==>
              UpdateFile(content, oldVersion, newVersion, loads) == WriteText(Replace(content, oldVersion, newVersion))
  {
  }

  /** A text without the old version is never written, whatever it holds. */
  lemma AbsentVersionNoTextWrite(content: string, oldVersion: string, newVersion: string, loads: string -> Option<Json>)
    requires !Contains(content, oldVersion)
    ensures !UpdateFile(content, oldVersion, newVersion, loads).WriteText?
  {
  }

  // The repository

  /** The new text of one file. */
  function NewContent(content: string, oldVersion: string, newVersion: string, loads: string -> Option<Json>,
                      dump: Json -> string): string
  {
    match UpdateFile(content, oldVersion, newVersion, loads)
    case NoWrite => content
    case WriteJson(data) => dump(data)
    case WriteText(text) => text
  }

  /**
   * The repository after the update: every SBOM file that can be read and
   * written gets its new text; every other file, and every SBOM file whose
   * reading or writing fails, keeps its own.
   */
  function Updated(files: map<string, string>, sboms: set<string>, readOnly: set<string>, oldVersion: string,
                   newVersion: string, loads: string -> Option<Json>, dump: Json -> string): map<string, string>
  {
    map p | p in files :: if p in sboms && p !in readOnly then NewContent(files[p], oldVersion, newVersion, loads, dump) else files[p]
  }

  lemma UpdatedOneMore(files: map<string, string>, done: set<string>, f: string, readOnly: set<string>, oldVersion: string,
                       newVersion: string, loads: string -> Option<Json>, dump: Json -> string)
    requires f !in done
    ensures var before := Updated(files, done, readOnly, oldVersion, newVersion, loads, dump);
            && (f in before <==> f in files)
            && (f in files ==> before[f] == files[f])
            && Updated(files, done + {f}, readOnly, oldVersion, newVersion, loads, dump)
               == if f in files && f !in readOnly then before[f := NewContent(files[f], oldVersion, newVersion, loads, dump)] else before
  {
  }

  /** The files under the local repository: their texts, and those that cannot be written. */
  class Repository {
    var files: map<string, string>
    const readOnly: set<string>

    constructor(files: map<string, string>, readOnly: set<string>)
      ensures this.files == files && this.readOnly == readOnly
    {
      this.files := files;
      this.readOnly := readOnly;
    }

    /**
     * `update_sbom_versions`: each SBOM file in turn, in the arbitrary
     * order of the set; a file that cannot be read or written is skipped
     * and the others are still processed.
     */
    method UpdateSbomVersions(paths: seq<string>, oldVersion: string, newVersion: string,
                              loads: string -> Option<Json>, dump: Json -> string)
      modifies this
      ensures files == Updated(old(files), FindSbomFiles(paths), readOnly, oldVersion, newVersion, loads, dump)
    {
      UpdateAll(FindSbomFiles(paths), oldVersion, newVersion, loads, dump);
    }

    /** The given files in turn, in the arbitrary order of the set. */
    method UpdateAll(sboms: set<string>, oldVersion: string, newVersion: string,
                     loads: string -> Option<Json>, dump: Json -> string)
      modifies this
      ensures files == Updated(old(files), sboms, readOnly, oldVersion, newVersion, loads, dump)
    {
      var start := files;
      var remaining := sboms;
      var done: set<string> := {};
      while remaining != {}
        invariant remaining <= sboms && done == sboms - remaining
        invariant files == Updated(start, done, readOnly, oldVersion, newVersion, loads, dump)
        decreases |remaining|
      {
        var f :| f in remaining;
        UpdatedOneMore(start, done, f, readOnly, oldVersion, newVersion, loads, dump);
        if f in files && f !in readOnly {
          UpdateOne(f, oldVersion, newVersion, loads, dump);
        }
        remaining := remaining - {f};
        done := done + {f};
      }
    }

    /** One SBOM file: read, rewritten, and written back when there is something to write. */
    method UpdateOne(f: string, oldVersion: string, newVersion: string, loads: string -> Option<Json>, dump: Json -> string)
      requires f in files
      modifies this
      ensures files == old(files)[f := NewContent(old(files)[f], oldVersion, newVersion, loads, dump)]
    {
      match UpdateFile(files[f], oldVersion, newVersion, loads) {
        case NoWrite =>
          assert files == files[f := files[f]];
        case WriteJson(data) =>
          files := files[f := dump(data)];
        case WriteText(text) =>
          files := files[f := text];
      }
    }
  }

  /** What one file becomes does not depend on any other file's text, so a failure on one cannot affect another. */
  lemma FilesUpdatedIndependently(files: map<string, string>, p: string, text: string, sboms: set<string>, readOnly: set<string>,
                                  oldVersion: string, newVersion: string, loads: string -> Option<Json>, dump: Json -> string)
    requires p in files
    ensures forall q :: q in files && q != p ==>
              Updated(files[p := text], sboms, readOnly, oldVersion, newVersion, loads, dump)[q]
              == Updated(files, sboms, readOnly, oldVersion, newVersion, loads, dump)[q]
    ensures p in sboms && p !in readOnly ==>
              Updated(files[p := text], sboms, readOnly, oldVersion, newVersion, loads, dump)[p]
              == NewContent(text, oldVersion, newVersion, loads, dump)
  {
  }
}
