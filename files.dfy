/** Snapshot files in an output directory: a file is a name and what reading
    it yields (the rows of a readable parquet file, or a read failure).
    Globbing by a `prefix*suffix` pattern and picking the newest name. */
module Files {
  import opened Strings
  import opened Ordering
  import opened Records

  datatype FileContent = Parquet(rows: seq<Row>) | Corrupt

  datatype DataFile = DataFile(name: string, content: FileContent)

  function FileName(f: DataFile): string
  {
    f.name
  }

  /** A glob `prefix*suffix`, where `*` matches any (possibly empty) text. */
  datatype Pattern = Pattern(prefix: string, suffix: string)

  predicate Matches(name: string, p: Pattern)
  {
    |p.prefix| + |p.suffix| <= |name| && StartsWith(name, p.prefix) && EndsWith(name, p.suffix)
  }

  /** What `pd.read_parquet` of a chosen file gives: no file at all, its
      rows, or an exception naming the file. */
  datatype ReadResult = Missing | Read(rows: seq<Row>) | ReadFailed(name: string)

  function ReadFile(f: DataFile): (r: ReadResult)
    ensures r != Missing
  {
    match f.content
    case Parquet(rows) => Read(rows)
    case Corrupt => ReadFailed(f.name)
  }

  /** `Path(dir).glob(pattern)`, in directory order. */
  function MatchingFiles(dir: seq<DataFile>, p: Pattern): (r: seq<DataFile>)
    ensures forall f :: f in r <==> f in dir && Matches(f.name, p)
  {
    Filter(dir, (f: DataFile) => Matches(f.name, p))
  }

  /** Path order on names within one directory. */
  predicate NameAscending(a: DataFile, b: DataFile)
  {
    LexLeq(a.name, b.name)
  }

  predicate NameDescending(a: DataFile, b: DataFile)
  {
    LexLeq(b.name, a.name)
  }

  lemma NameOrdersTotal()
    ensures TotalPreorder(NameAscending)
    ensures TotalPreorder(NameDescending)
  {
    forall a: DataFile, b: DataFile
      ensures NameAscending(a, b) || NameAscending(b, a)
      ensures NameDescending(a, b) || NameDescending(b, a)
    {
      LexTrichotomy(a.name, b.name);
    }
    forall a: DataFile, b: DataFile, c: DataFile | NameAscending(a, b) && NameAscending(b, c)
      ensures NameAscending(a, c)
    {
      if a.name != b.name && b.name != c.name {
        LexTransitive(a.name, b.name, c.name);
      }
    }
    forall a: DataFile, b: DataFile, c: DataFile | NameDescending(a, b) && NameDescending(b, c)
      ensures NameDescending(a, c)
    {
      if a.name != b.name && b.name != c.name {
        LexTransitive(c.name, b.name, a.name);
      }
    }
  }

  /** `sorted(...)` of paths in one directory. */
  function SortedByName(files: seq<DataFile>): (r: seq<DataFile>)
    ensures multiset(r) == multiset(files)
    ensures SortedBy(r, NameAscending)
  {
    NameOrdersTotal();
    SortSorted(files, NameAscending);
    Sort(files, NameAscending)
  }

  /** `sorted(..., reverse=True)`. */
  function SortedByNameDescending(files: seq<DataFile>): (r: seq<DataFile>)
    ensures multiset(r) == multiset(files)
    ensures SortedBy(r, NameDescending)
  {
    NameOrdersTotal();
    SortSorted(files, NameDescending);
    Sort(files, NameDescending)
  }

  /** The last name of a name-sorted list is the greatest. */
  lemma SortedLastGreatest(files: seq<DataFile>)
    requires |files| > 0 && SortedBy(files, NameAscending)
    ensures forall g :: g in files ==> LexLeq(g.name, files[|files| - 1].name)
  {
    forall g | g in files
      ensures LexLeq(g.name, files[|files| - 1].name)
    {
      var k :| 0 <= k < |files| && files[k] == g;
      if k < |files| - 1 {
        assert NameAscending(files[k], files[|files| - 1]);
      }
    }
  }

  /** `pd.read_parquet(files[-1]) if files else None` over the sorted
      matches: the file with the greatest name is read. */
  function ReadLatest(dir: seq<DataFile>, p: Pattern): (r: ReadResult)
    ensures r.Missing? <==> forall f :: f in dir ==> !Matches(f.name, p)
    ensures !r.Missing? ==> exists f :: (f in dir && Matches(f.name, p) && r == ReadFile(f)
      && forall g :: g in dir && Matches(g.name, p) ==> LexLeq(g.name, f.name))
  {
    var matching := MatchingFiles(dir, p);
    var files := SortedByName(matching);
    assert forall f :: f in files <==> f in matching by {
      forall f ensures f in files <==> f in matching {
        assert f in files <==> f in multiset(files);
        assert f in matching <==> f in multiset(matching);
      }
    }
    if files == [] then
      Missing
    else
      SortedLastGreatest(files);
      ReadFile(files[|files| - 1])
  }
}
