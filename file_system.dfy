/**
 * The slice of the file system the core touches: a listed file (`FileInfo`) and a folder
 * whose files can be moved to a new name (`File.Move` inside one folder).
 */
module FileSystem {
  import opened Wrappers

  /**
   * A file as returned by a folder listing. The extension is kept as given rather than
   * re-derived from the name.
   */
  class FileInfo {
    const name: string
    const extension: string

    constructor (name: string, extension: string)
      ensures this.name == name && this.extension == extension
    {
      this.name := name;
      this.extension := extension;
    }
  }

  /** The files of one folder, by name. */
  type Entries = map<string, FileInfo>

  /**
   * `File.Move(source, dest)` within one folder: a missing source is a FileNotFound error, an
   * existing destination an IO error; otherwise the file leaves `source` and appears at `dest`.
   */
  function MoveEntry(entries: Entries, source: string, dest: string): (r: Result<Entries>)
    ensures source !in entries ==> r == Err(FileNotFound)
    ensures source in entries && dest in entries ==> r == Err(IOError)
    ensures r.Ok? <==> source in entries && dest !in entries
    ensures r.Ok? ==> r.value.Keys == entries.Keys - {source} + {dest}
    ensures r.Ok? ==> r.value[dest] == entries[source]
    ensures r.Ok? ==> forall n :: n in entries && n != source ==> n in r.value && r.value[n] == entries[n]
  {
    if source !in entries then Err(FileNotFound)
    else if dest in entries then Err(IOError)
    else
      Ok((entries - {source})[dest := entries[source]])
  }

  /** A move neither creates nor loses a file. */
  lemma MoveKeepsCount(entries: Entries, source: string, dest: string)
    requires MoveEntry(entries, source, dest).Ok?
    ensures |MoveEntry(entries, source, dest).value| == |entries|
  {
    var rest := entries - {source};
    assert rest.Keys == entries.Keys - {source};
    assert |rest| == |entries| - 1;
  }

  /** A folder whose set of files changes as files are moved. */
  class Directory {
    var entries: Entries

    constructor (entries: Entries)
      ensures this.entries == entries
    {
      this.entries := entries;
    }

    /** Moves one file; on failure nothing changes. */
    method Move(source: string, dest: string) returns (o: Outcome)
      modifies this
      ensures MoveEntry(old(entries), source, dest).Ok? ==>
                o == Pass && entries == MoveEntry(old(entries), source, dest).value
      ensures MoveEntry(old(entries), source, dest).Err? ==>
                o == Fail(MoveEntry(old(entries), source, dest).error) && entries == old(entries)
    {
      var r := MoveEntry(entries, source, dest);
      if r.Ok? {
        entries := r.value;
        o := Pass;
      } else {
        o := Fail(r.error);
      }
    }
  }
}
