/** The reports directory: every script works on one directory whose entries are file names
    mapped to their byte size and parsed content. */
module Storage {
  import opened Json
  import opened Text

  /** What reading and `JSON.parse`-ing a file gives: a value, a parse failure, or a read failure. */
  datatype Content = Parsed(value: Json) | Malformed | ReadFailed

  datatype FileEntry = FileEntry(size: nat, content: Content)

  type Files = map<string, FileEntry>

  predicate Distinct<T(==)>(s: seq<T>) {
    forall i, j :: 0 <= i < j < |s| ==> s[i] != s[j]
  }

  /** `xs` is `ys` with some elements left out, the rest in their order: what `.filter` makes
      of an array. */
  predicate IsSubseqOf<T(==)>(xs: seq<T>, ys: seq<T>)
    decreases |ys|
  {
    xs == [] || (ys != [] && (if xs[0] == ys[0] then IsSubseqOf(xs[1..], ys[1..]) else IsSubseqOf(xs, ys[1..])))
  }

  /** No name of the list is in canonical (`gct-`) form, as holds of the rename candidates and
      of the uploads. */
  predicate NonCanonical(names: seq<string>) {
    forall n :: n in names ==> !StartsWith(n, "gct-")
  }

  /** `listing` is what `fs.readdirSync` returns for `files`: every name once, in some order. */
  predicate Enumerates(listing: seq<string>, files: Files) {
    Distinct(listing) && (forall n :: n in listing ==> n in files) && (forall n :: n in files ==> n in listing)
  }

  /** The directory on disk. A failing `unlinkSync` or `renameSync` (permissions, I/O) is
      modelled by the set `fails` of names whose operations fail. */
  class Directory {
    var files: Files

    constructor (initial: Files)
      ensures files == initial
    {
      files := initial;
    }

    /** `fs.unlinkSync(name)`: fails for a missing name or a name in `fails`. */
    method Unlink(name: string, fails: set<string>) returns (ok: bool)
      modifies this
      ensures ok == (name in old(files) && name !in fails)
      ensures files == if ok then old(files) - {name} else old(files)
    {
      ok := name in files && name !in fails;
      if ok {
        files := files - {name};
      }
    }

    /** `fs.renameSync(from, to)`: moves the entry, replacing any entry already named `to`. */
    method Rename(from: string, to: string, fails: set<string>) returns (ok: bool)
      modifies this
      ensures ok == (from in old(files) && from !in fails)
      ensures files == if ok then (old(files) - {from})[to := old(files)[from]] else old(files)
    {
      ok := from in files && from !in fails;
      if ok {
        files := (files - {from})[to := files[from]];
      }
    }

    /** `fs.writeFileSync(name, ...)`: creates or replaces the entry. */
    method Write(name: string, entry: FileEntry)
      modifies this
      ensures files == old(files)[name := entry]
    {
      files := files[name := entry];
    }
  }
}
