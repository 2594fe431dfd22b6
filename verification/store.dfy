/** The document store of db.js: a directory of JSON files used as keyed
    documents, and the append-only audit log `log.txt`. Every operation is one
    atomic step on the directory and the log; the timestamp `Date.now()` is a
    parameter. */
module DocumentStore {
  import opened Text
  import opened KeySets
  import opened Json

  /** The contents of one file of the directory. */
  datatype File =
    | Doc(doc: Document)   // text that `JSON.parse` turns into an object
    | Raw(text: string)    // any other text

  /** Why reading and parsing a file failed. */
  datatype Failure =
    | NoEntry(path: string)  // `fs.readFile` rejects: the file does not exist
    | BadJson                // `JSON.parse` throws

  datatype Result<T> = Ok(value: T) | Err(failure: Failure)

  /** The directory: file name to contents. */
  type Files = map<string, File>

  /** Every parsed document in the directory has unique keys. */
  ghost predicate DocsValid(files: Files)
  {
    forall f :: f in files && files[f].Doc? ==> files[f].doc.Valid()
  }

  /** `fs.readFile(file)` followed by `JSON.parse`. */
  function ReadDoc(files: Files, file: string): (r: Result<Document>)
    ensures r == Err(NoEntry(file)) <==> file !in files
    ensures r == Err(BadJson) <==> file in files && files[file].Raw?
    ensures r.Ok? <==> file in files && files[file].Doc?
    ensures r.Ok? ==> files[file] == Doc(r.value)
  {
    if file !in files then Err(NoEntry(file))
    else match files[file]
      case Doc(d) => Ok(d)
      case Raw(_) => Err(BadJson)
  }

  /** Both reads of `union`, `intersect` and `difference` come before both
      parses, so a missing file is reported before a malformed one. */
  function ReadPair(files: Files, fileA: string, fileB: string): (r: Result<(Document, Document)>)
    ensures r.Ok? <==> ReadDoc(files, fileA).Ok? && ReadDoc(files, fileB).Ok?
    ensures r.Ok? ==> r.value == (ReadDoc(files, fileA).value, ReadDoc(files, fileB).value)
    ensures fileA !in files ==> r == Err(NoEntry(fileA))
    ensures fileA in files && fileB !in files ==> r == Err(NoEntry(fileB))
    ensures fileA in files && fileB in files && r.Err? ==> r == Err(BadJson)
  {
    if fileA !in files then Err(NoEntry(fileA))
    else if fileB !in files then Err(NoEntry(fileB))
    else match (files[fileA], files[fileB])
      case (Doc(a), Doc(b)) => Ok((a, b))
      case _ => Err(BadJson)
  }

  /** `${err}` for the error a failed read or parse throws. */
  function Describe(f: Failure): (r: string)
    ensures f.NoEntry? <==> "Error: ENOENT" <= r
    ensures f.NoEntry? ==> |r| > |f.path| + 1 && r[|r| - |f.path| - 1..|r| - 1] == f.path
    ensures f.NoEntry? ==> r[|r| - |f.path| - 2] == '\'' && r[|r| - 1] == '\''
  {
    match f
    case NoEntry(path) => "Error: ENOENT: no such file or directory, open '" + path + "'"
    case BadJson =>
      var r := "SyntaxError: Unexpected token in JSON";
      assert r[0] != 'E';
      r
  }

  /** The line `log(message)` appends to `log.txt`. */
  function Line(message: string, now: int): string
  {
    "Message: " + message + " @Timestamp: " + IntText(now) + "\n"
  }

  /** A log line is the message after its `Message: ` label, then the
      timestamp's decimal text after ` @Timestamp: `, then one newline; the
      timestamp text reads back as `now`. */
  lemma LineParts(message: string, now: int)
    ensures var head := "Message: " + message + " @Timestamp: ";
      var r := Line(message, now);
      |r| == |head| + |IntText(now)| + 1 && head <= r
      && r[|head|..|r| - 1] == IntText(now) && r[|r| - 1] == '\n'
    ensures now >= 0 ==> DigitsValue(Line(message, now)[|"Message: " + message + " @Timestamp: "|..|Line(message, now)| - 1]) == now
  {
    var head := "Message: " + message + " @Timestamp: ";
    var r := Line(message, now);
    assert r == head + IntText(now) + "\n";
    assert r[|head|..|r| - 1] == IntText(now);
  }

  /** `data[0]` is truthy: the file holds at least one character. A parsed
      document always does (its text holds at least `{}`). */
  predicate NonEmpty(f: File): (r: bool)
    ensures f.Doc? ==> r && |DocumentText(f.doc)| > 0
    ensures f.Raw? ==> (r <==> |f.text| > 0)
  {
    f.Doc? || f.text != ""
  }

  /** The name filter of `mergeData`: it mentions `json` and not `package`. */
  predicate IsDataFile(name: string): (r: bool)
    ensures r <==> (exists i :: OccursAt(name, "json", i)) && !(exists i :: OccursAt(name, "package", i))
  {
    ContainsAt(name, "json");
    ContainsAt(name, "package");
    Contains(name, "json") && !Contains(name, "package")
  }

  /** The entries of a directory listing that pass the name filter, in listing order. */
  function DataFiles(listing: seq<string>): (r: seq<string>)
    ensures forall n :: n in r <==> n in listing && IsDataFile(n)
    ensures |r| <= |listing|
  {
    if listing == [] then []
    else
      var last := listing[|listing| - 1];
      var front := DataFiles(listing[..|listing| - 1]);
      assert forall n :: n in listing <==> n in listing[..|listing| - 1] || n == last;
      if IsDataFile(last) then front + [last] else front
  }

  /** `name.slice(0, name.indexOf('.'))`: the text before the first dot; when
      there is no dot, `indexOf` gives -1 and the last character is cut off. */
  function BaseName(name: string): (r: string)
    ensures '.' in name ==> '.' !in r && r + ['.'] <= name
    ensures '.' !in name && name != [] ==> r + [name[|name| - 1]] == name
    ensures name == [] ==> r == []
  {
    var i := IndexOf(name, '.');
    var r := SliceTo(name, i);
    assert i >= 0 ==> name[..i + 1] == r + ['.'];
    r
  }

  /** Every one of `names` can be read and parsed; otherwise `mergeData`
      stops at the first one that cannot. */
  predicate AllReadable(files: Files, names: seq<string>)
  {
    forall i :: 0 <= i < |names| ==> ReadDoc(files, names[i]).Ok?
  }

  /** The object `mergeData` builds from the data files `names`, read in
      order: each file's parsed contents under its base name. */
  function Merged(files: Files, names: seq<string>): (r: Obj<Document>)
    requires AllReadable(files, names)
    ensures r.Valid()
  {
    if names == [] then EmptyObj()
    else
      var front, last := names[..|names| - 1], names[|names| - 1];
      assert forall i :: 0 <= i < |front| ==> front[i] == names[i];
      assert ReadDoc(files, names[|names| - 1]).Ok?;
      Merged(files, front).Put(BaseName(last), ReadDoc(files, last).value)
  }

  /** Reading one more data file extends the merged object by one `Put`. */
  lemma MergedStep(files: Files, names: seq<string>, i: nat)
    requires i < |names|
    requires AllReadable(files, names[..i]) && ReadDoc(files, names[i]).Ok?
    ensures AllReadable(files, names[..i + 1])
    ensures Merged(files, names[..i + 1]) == Merged(files, names[..i]).Put(BaseName(names[i]), ReadDoc(files, names[i]).value)
  {
    var prefix := names[..i + 1];
    assert prefix[..i] == names[..i];
    assert forall j :: 0 <= j < i ==> prefix[j] == names[..i][j];
  }

  /** The base names of `names`, in order. */
  function BaseNames(names: seq<string>): (r: seq<string>)
    ensures |r| == |names|
    ensures forall i :: 0 <= i < |names| ==> r[i] == BaseName(names[i])
  {
    if names == [] then [] else BaseNames(names[..|names| - 1]) + [BaseName(names[|names| - 1])]
  }

  /** The merged object has one property per distinct base name of the data files. */
  lemma {:induction false} MergeKeys(files: Files, names: seq<string>)
    requires AllReadable(files, names)
    ensures forall k :: k in Merged(files, names).vals <==> k in BaseNames(names)
  {
    if names != [] {
      var front := names[..|names| - 1];
      assert forall i :: 0 <= i < |front| ==> front[i] == names[i];
      MergeKeys(files, front);
      assert BaseNames(names) == BaseNames(front) + [BaseName(names[|names| - 1])];
    }
  }

  /** Of several data files with the same base name, the one read last wins:
      a file with no later namesake contributes its own contents. */
  lemma {:induction false} MergeLastWins(files: Files, names: seq<string>, i: nat)
    requires AllReadable(files, names)
    requires i < |names|
    requires forall j :: i < j < |names| ==> BaseName(names[j]) != BaseName(names[i])
    ensures BaseName(names[i]) in Merged(files, names).vals
    ensures Merged(files, names).vals[BaseName(names[i])] == files[names[i]].doc
  {
    var front := names[..|names| - 1];
    if i < |names| - 1 {
      assert forall j :: 0 <= j < |front| ==> front[j] == names[j];
      MergeLastWins(files, front, i);
    }
  }

  /** The store: the directory's files and the lines of `log.txt`. */
  class Store {
    var files: Files
    var log: seq<string>

    ghost predicate Valid()
      reads this
    {
      DocsValid(files)
    }

    constructor (initial: Files, initialLog: seq<string>)
      requires DocsValid(initial)
      ensures Valid()
      ensures files == initial && log == initialLog
    {
      files := initial;
      log := initialLog;
    }

    /** `log(message)`: append one timestamped line; nothing is ever rewritten. */
    method Log(message: string, now: int)
      modifies this`log
      ensures log == old(log) + [Line(message, now)]
    {
      log := log + [Line(message, now)];
    }

    /** `get(file, key)`: log the value of `key`. An absent key and a falsy
        value are both reported as an invalid key. No file changes. */
    method Get(file: string, key: Key, now: int)
      modifies this`log
      ensures files == old(files)
      ensures var r := ReadDoc(files, file);
        log == old(log) + [Line(
          if r.Err? then "Error no file or directory on " + file + " -> " + Describe(r.failure)
          else if key in r.value.vals && Truthy(r.value.vals[key])
          then "Get " + key + " on " + file + " -> " + Show(r.value.vals[key])
          else "Error " + key + " invalid on " + file, now)]
    {
      match ReadDoc(files, file)
      case Err(f) =>
        Log("Error no file or directory on " + file + " -> " + Describe(f), now);
      case Ok(d) =>
        if key in d.vals && Truthy(d.vals[key]) {
          Log("Get " + key + " on " + file + " -> " + Show(d.vals[key]), now);
        } else {
          Log("Error " + key + " invalid on " + file, now);
        }
    }

    /** `set(file, key, value)`: rewrite the document with `key` mapped to
        `value`. When the file cannot be read or parsed nothing is written and
        one error line is logged. */
    method Set(file: string, key: Key, value: Value, now: int)
      requires Valid()
      modifies this
      ensures Valid()
      ensures var r := ReadDoc(old(files), file);
        if r.Err? then
          files == old(files) && log == old(log) + [Line("Error " + Describe(r.failure), now)]
        else
          files == old(files)[file := Doc(r.value.Put(key, value))]
          && log == old(log) + [Line("Set " + key + " on " + file + " -> " + Show(value), now)]
    {
      match ReadDoc(files, file)
      case Err(f) =>
        Log("Error " + Describe(f), now);
      case Ok(d) =>
        files := files[file := Doc(d.Put(key, value))];
        Log("Set " + key + " on " + file + " -> " + Show(value), now);
    }

    /** `remove(file, key)`: rewrite the document without `key`. When the file
        cannot be read or parsed nothing is written and one error line is logged. */
    method Remove(file: string, key: Key, now: int)
      requires Valid()
      modifies this
      ensures Valid()
      ensures var r := ReadDoc(old(files), file);
        if r.Err? then
          files == old(files) && log == old(log) + [Line("Error " + Describe(r.failure), now)]
        else
          files == old(files)[file := Doc(r.value.Drop(key))]
          && log == old(log) + [Line("Remove " + key + " on " + file, now)]
    {
      match ReadDoc(files, file)
      case Err(f) =>
        Log("Error " + Describe(f), now);
      case Ok(d) =>
        files := files[file := Doc(d.Drop(key))];
        Log("Remove " + key + " on " + file, now);
    }

    /** `deleteFile(file)`: the file is gone afterwards whether or not it
        existed; a missing file is only reported on the console. */
    method DeleteFile(file: string)
      requires Valid()
      modifies this`files
      ensures Valid()
      ensures files == old(files) - {file}
      ensures log == old(log)
    {
      files := files - {file};
    }

    /** `createFile(file)`: an absent file is created holding `{}`; a file
        with contents is left alone and the refusal logged; an existing empty
        file is left alone without any log line. */
    method CreateFile(file: string, now: int)
      requires Valid()
      modifies this
      ensures Valid()
      ensures file !in old(files) ==>
        files == old(files)[file := Doc(EmptyObj())] && log == old(log) + [Line("CreateFile " + file, now)]
      ensures file in old(files) && NonEmpty(old(files)[file]) ==>
        files == old(files) && log == old(log) + [Line("CreateFile DENIED: " + file + " already exists", now)]
      ensures file in old(files) && !NonEmpty(old(files)[file]) ==>
        files == old(files) && log == old(log)
    {
      if file !in files {
        files := files[file := Doc(EmptyObj())];
        Log("CreateFile " + file, now);
      } else if NonEmpty(files[file]) {
        Log("CreateFile DENIED: " + file + " already exists", now);
      }
    }

    /** `mergeData()` over the directory listing `listing`: collect the data
        files, parse each under its base name, and append the merged object as
        one line (this line has no timestamp). A file that cannot be read or
        parsed aborts the merge with nothing logged. */
    method MergeData(listing: seq<string>)
      modifies this`log
      ensures files == old(files)
      ensures !AllReadable(files, DataFiles(listing)) ==> log == old(log)
      ensures AllReadable(files, DataFiles(listing)) ==>
        log == old(log) + ["MergeData Performed -> " + Merged(files, DataFiles(listing)).Stringify(DocumentText) + "\n"]
    {
      var names: seq<string> := [];
      for i := 0 to |listing|
        invariant names == DataFiles(listing[..i])
        invariant log == old(log)
      {
        assert listing[..i + 1][..i] == listing[..i];
        if IsDataFile(listing[i]) {
          names := names + [listing[i]];
        }
      }
      assert listing[..|listing|] == listing;
      assert names == DataFiles(listing);
      var merged: Obj<Document> := EmptyObj();
      for i := 0 to |names|
        invariant AllReadable(files, names[..i]) && merged == Merged(files, names[..i])
        invariant log == old(log)
      {
        var read := ReadDoc(files, names[i]);
        if read.Err? {
          return;
        }
        MergedStep(files, names, i);
        merged := merged.Put(BaseName(names[i]), read.value);
      }
      assert names[..|names|] == names;
      log := log + ["MergeData Performed -> " + merged.Stringify(DocumentText) + "\n"];
    }

    /** `union(fileA, fileB)`: log A's keys followed by B's keys that A lacks. */
    method Union(fileA: string, fileB: string, now: int)
      requires Valid()
      modifies this`log
      ensures files == old(files)
      ensures var r := ReadPair(files, fileA, fileB);
        log == old(log) + [Line(
          if r.Err? then "ERROR: " + Describe(r.failure)
          else "Union Performed " + Join(UnionOf(r.value.0.keys, r.value.1.keys), ","), now)]
    {
      match ReadPair(files, fileA, fileB)
      case Err(f) =>
        Log("ERROR: " + Describe(f), now);
      case Ok((a, b)) =>
        var keys := KeySets.Union(a.keys, b.keys);
        Log("Union Performed " + Join(keys, ","), now);
    }

    /** `intersect(fileA, fileB)`: log A's keys that B also has. */
    method Intersect(fileA: string, fileB: string, now: int)
      requires Valid()
      modifies this`log
      ensures files == old(files)
      ensures var r := ReadPair(files, fileA, fileB);
        log == old(log) + [Line(
          if r.Err? then "ERROR: " + Describe(r.failure)
          else "Intersection Performed " + Join(IntersectOf(r.value.0.keys, r.value.1.keys), ","), now)]
    {
      match ReadPair(files, fileA, fileB)
      case Err(f) =>
        Log("ERROR: " + Describe(f), now);
      case Ok((a, b)) =>
        var keys := KeySets.Intersect(a.keys, b.keys);
        Log("Intersection Performed " + Join(keys, ","), now);
    }

    /** `difference(fileA, fileB)`: log the keys found in exactly one of the
        two documents, A's first. */
    method Difference(fileA: string, fileB: string, now: int)
      requires Valid()
      modifies this`log
      ensures files == old(files)
      ensures var r := ReadPair(files, fileA, fileB);
        log == old(log) + [Line(
          if r.Err? then "ERROR: " + Describe(r.failure)
          else "Difference Performed " + Join(DifferenceOf(r.value.0.keys, r.value.1.keys), ","), now)]
    {
      match ReadPair(files, fileA, fileB)
      case Err(f) =>
        Log("ERROR: " + Describe(f), now);
      case Ok((a, b)) =>
        var keys := KeySets.Difference(a.keys, b.keys);
        Log("Difference Performed " + Join(keys, ","), now);
    }
  }
}
