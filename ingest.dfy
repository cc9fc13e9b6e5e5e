/**
 * Loading uploaded files. Each file is written to a temporary path, classified
 * by the lower-cased suffix of that path, handed to the loader for its kind
 * when the kind is supported, and the temporary file is removed again.
 */
module Ingest {
  import opened Wrappers
  import opened Strings
  import opened DocumentStore

  newtype byte = x: int | 0 <= x < 256

  /** An uploaded file: its name and its bytes. */
  datatype UploadedFile = UploadedFile(name: string, content: seq<byte>)

  datatype FileKind = Pdf | Txt | Docx | Unsupported

  /**
   * The PDF, text and Word loaders: the documents read from the file of the
   * given kind at the given path, whose bytes are given, or `None` when
   * `load()` raises (a corrupt PDF, a text file that is not UTF-8).
   */
  type Loader = (FileKind, string, seq<byte>) -> Option<seq<Document>>

  /** The local files, by path. */
  type FileSystem = map<string, seq<byte>>

  /**
   * The temporary path a file is written to and loaded from:
   * `str(Path(f"./temp_{name}"))`, where pathlib drops the leading `./`.
   */
  function TempPath(name: string): string {
    "temp_" + name
  }

  /** pathlib's `name`: the last component of a path; trailing '/' and '.' components do not count. */
  function PathName(p: string): string
    decreases |p|
  {
    if p != [] && p[|p| - 1] == '/' then PathName(p[..|p| - 1])
    else
      var b := Basename(p);
      if b == "." then PathName(p[..|p| - 1]) else b
  }

  /** `s.rfind('.')`, as an index. */
  function LastDot(s: string): (r: Option<nat>)
    ensures r.None? ==> forall k :: 0 <= k < |s| ==> s[k] != '.'
    ensures r.Some? ==>
      r.value < |s| && s[r.value] == '.' && forall k :: r.value < k < |s| ==> s[k] != '.'
  {
    if s == [] then None
    else if s[|s| - 1] == '.' then Some(|s| - 1)
    else LastDot(s[..|s| - 1])
  }

  /** pathlib's `suffix` of a final component: from its last '.', unless that dot is first or last. */
  function Suffix(name: string): (r: string)
    ensures r != [] ==> 2 <= |r| < |name| && r == name[|name| - |r|..] && r[0] == '.'
  {
    match LastDot(name)
    case Some(i) => if 0 < i < |name| - 1 then name[i..] else ""
    case None => ""
  }

  /** The loader chosen for a lower-cased suffix. */
  function ExtKind(ext: string): FileKind {
    if ext == ".pdf" then Pdf
    else if ext == ".txt" then Txt
    else if ext == ".docx" then Docx
    else Unsupported
  }

  /** `Path(path).suffix.lower()`, dispatched. */
  function Classify(path: string): FileKind {
    ExtKind(Lower(Suffix(PathName(path))))
  }

  /**
   * What one file contributes when its loader does not raise: the loader's
   * documents, or nothing when the file is unsupported.
   */
  function LoadOne(f: UploadedFile, load: Loader): seq<Document> {
    var path := TempPath(f.name);
    var kind := Classify(path);
    if kind == Unsupported then [] else load(kind, path, f.content).GetOr([])
  }

  /** The file is supported and its loader raises. */
  predicate Fails(f: UploadedFile, load: Loader) {
    Supported(f) && load(Classify(TempPath(f.name)), TempPath(f.name), f.content).None?
  }

  function FailsWith(load: Loader): UploadedFile -> bool {
    f => Fails(f, load)
  }

  /** No element is `bad`, stated element by element from the end (see `NoneOfAll`). */
  predicate NoneOf<T>(s: seq<T>, bad: T -> bool) {
    s == [] || (NoneOf(s[..|s| - 1], bad) && !bad(s[|s| - 1]))
  }

  /** Element `k` is the first that is `bad`. */
  predicate FirstOf<T>(s: seq<T>, bad: T -> bool, k: int) {
    0 <= k < |s| && bad(s[k]) && NoneOf(s[..k], bad)
  }

  /** File `k` is the first whose loader raises. */
  predicate FirstFailure(files: seq<UploadedFile>, load: Loader, k: int) {
    FirstOf(files, FailsWith(load), k)
  }

  /** The concatenation of what `each` gives for every file, in input order. */
  function Concat(files: seq<UploadedFile>, each: UploadedFile -> seq<Document>): seq<Document> {
    if files == [] then [] else Concat(files[..|files| - 1], each) + each(files[|files| - 1])
  }

  /** The documents of all files: each file's contribution, in input order. */
  function Loaded(files: seq<UploadedFile>, load: Loader): seq<Document> {
    Concat(files, f => LoadOne(f, load))
  }

  /** The temporary paths of all files. */
  function TempPaths(files: seq<UploadedFile>): set<string> {
    if files == [] then {} else TempPaths(files[..|files| - 1]) + {TempPath(files[|files| - 1].name)}
  }

  predicate Supported(f: UploadedFile) {
    Classify(TempPath(f.name)) != Unsupported
  }

  /** The supported files, in input order. */
  function SupportedFiles(files: seq<UploadedFile>): seq<UploadedFile> {
    if files == [] then []
    else if Supported(files[|files| - 1]) then SupportedFiles(files[..|files| - 1]) + [files[|files| - 1]]
    else SupportedFiles(files[..|files| - 1])
  }

  // ---------------------------------------------------------------------------
  // Lemmas
  // ---------------------------------------------------------------------------

  lemma {:induction false} ConcatAppend(a: seq<UploadedFile>, b: seq<UploadedFile>, each: UploadedFile -> seq<Document>)
    ensures Concat(a + b, each) == Concat(a, each) + Concat(b, each)
    decreases |b|
  {
    if b == [] {
      assert a + b == a;
    } else {
      var b' := b[..|b| - 1];
      assert (a + b)[..|a + b| - 1] == a + b';
      assert (a + b)[|a + b| - 1] == b[|b| - 1];
      ConcatAppend(a, b', each);
    }
  }

  /** Loading a concatenation of batches concatenates their documents. */
  lemma LoadedAppend(a: seq<UploadedFile>, b: seq<UploadedFile>, load: Loader)
    ensures Loaded(a + b, load) == Loaded(a, load) + Loaded(b, load)
  {
    ConcatAppend(a, b, f => LoadOne(f, load));
  }

  /** Unsupported files contribute nothing: loading all files is loading the supported ones. */
  lemma {:induction false} OnlySupportedContribute(files: seq<UploadedFile>, load: Loader)
    ensures Loaded(files, load) == Loaded(SupportedFiles(files), load)
  {
    if files != [] {
      var init, last := files[..|files| - 1], files[|files| - 1];
      OnlySupportedContribute(init, load);
      if Supported(last) {
        var s := SupportedFiles(init) + [last];
        assert s[..|s| - 1] == SupportedFiles(init) && s[|s| - 1] == last;
      }
    }
  }

  /** A batch without a supported file loads nothing; in particular an empty batch. */
  lemma {:induction false} NothingSupportedNothingLoaded(files: seq<UploadedFile>, load: Loader)
    requires forall i :: 0 <= i < |files| ==> !Supported(files[i])
    ensures Loaded(files, load) == []
  {
    if files != [] {
      NothingSupportedNothingLoaded(files[..|files| - 1], load);
    }
  }

  /** The final component of a temporary path is `temp_` and the file's name. */
  lemma TempPathName(name: string)
    requires '/' !in name
    ensures PathName(TempPath(name)) == "temp_" + name
    ensures PathName(TempPath(name)) == TempPath(name)
  {
    var n := TempPath(name);
    assert n[0] == 't' && n[|n| - 1] != '/';
    var b := Basename(n);
    assert |b| == |n|;
    assert b == n[0..] == n;
    assert b != ".";
  }

  lemma LowerIsDot(c: char)
    ensures LowerChar(c) == '.' <==> c == '.'
  {
  }

  lemma LastDotAt(s: string, i: nat)
    requires i < |s| && s[i] == '.' && forall k :: i < k < |s| ==> s[k] != '.'
    ensures LastDot(s) == Some(i)
  {
  }

  /** The three extensions a loader exists for. */
  predicate Known(ext: string) {
    ext == ".pdf" || ext == ".txt" || ext == ".docx"
  }

  /** An extension: a '.' and at least one more character, none of them a '.'. */
  predicate DotExt(ext: string) {
    2 <= |ext| && ext[0] == '.' && forall k :: 0 < k < |ext| ==> ext[k] != '.'
  }

  lemma KnownShape(ext: string)
    requires Known(ext)
    ensures DotExt(ext)
    ensures ExtKind(ext) != Unsupported
    ensures forall e :: ExtKind(e) == ExtKind(ext) ==> e == ext
  {
  }

  /** A dot that is neither first nor last, and the last dot, starts the suffix. */
  lemma SuffixAt(n: string, i: nat)
    requires 0 < i <= |n| && DotExt(n[i..])
    ensures Suffix(n) == n[i..]
  {
    forall k | i < k < |n| ensures n[k] != '.' {
      assert n[k] == n[i..][k - i];
    }
    LastDotAt(n, i);
  }

  /** What lowers to an extension is shaped like one. */
  lemma LowerDotExt(t: string, ext: string)
    requires DotExt(ext) && Lower(t) == ext
    ensures DotExt(t)
  {
    LowerIsDot(t[0]);
    forall k | 0 < k < |t| ensures t[k] != '.' {
      assert Lower(t)[k] == LowerChar(t[k]);
      LowerIsDot(t[k]);
    }
  }

  /** A name ending in an extension (in any case) has that ending as its suffix. */
  lemma SuffixOfEnding(name: string, ext: string)
    requires '/' !in name && DotExt(ext)
    requires |ext| <= |name| && Lower(name[|name| - |ext|..]) == ext
    ensures Suffix(PathName(TempPath(name))) == name[|name| - |ext|..]
  {
    var n := TempPath(name);
    var t := name[|name| - |ext|..];
    var i := |n| - |ext|;
    assert i == 5 + (|name| - |ext|);
    TempPathTail(name, |name| - |ext|);
    assert n[i..] == t;
    LowerDotExt(t, ext);
    SuffixAt(n, i);
    TempPathName(name);
  }

  /** The suffix of a temporary path lies within the file's name. */
  lemma TempSuffixEnding(name: string, suffix: string)
    requires suffix == Suffix(TempPath(name))
    ensures |suffix| <= |name| && suffix == name[|name| - |suffix|..]
  {
    TempPrefixNoDot(name);
    if suffix != [] {
      var n := TempPath(name);
      var i := |n| - |suffix|;
      assert n[i] == '.';
      TempPathTail(name, i - 5);
    }
  }

  /**
   * For a file name without '/', the file is given to the loader for `.pdf`,
   * `.txt` or `.docx` exactly when its name ends with that extension in any
   * mix of upper and lower case.
   */
  lemma ClassifiedByEnding(name: string, ext: string)
    requires '/' !in name && Known(ext)
    ensures Classify(TempPath(name)) == ExtKind(ext) <==>
      (|ext| <= |name| && Lower(name[|name| - |ext|..]) == ext)
  {
    if |ext| <= |name| && Lower(name[|name| - |ext|..]) == ext {
      ClassifiedIfEnding(name, ext);
    }
    if Classify(TempPath(name)) == ExtKind(ext) {
      EndingIfClassified(name, ext);
    }
  }

  lemma ClassifiedIfEnding(name: string, ext: string)
    requires '/' !in name && Known(ext)
    requires |ext| <= |name| && Lower(name[|name| - |ext|..]) == ext
    ensures Classify(TempPath(name)) == ExtKind(ext)
  {
    KnownShape(ext);
    SuffixOfEnding(name, ext);
  }

  lemma EndingIfClassified(name: string, ext: string)
    requires '/' !in name && Known(ext)
    requires Classify(TempPath(name)) == ExtKind(ext)
    ensures |ext| <= |name| && Lower(name[|name| - |ext|..]) == ext
  {
    KnownShape(ext);
    TempPathName(name);
    var suffix := Suffix(TempPath(name));
    TempSuffixEnding(name, suffix);
    assert Lower(suffix) == ext;
  }

  /** Past its `temp_` prefix, a temporary path is the file's name. */
  lemma TempPathTail(name: string, j: nat)
    requires j <= |name|
    ensures TempPath(name)[5 + j..] == name[j..]
  {
  }

  /** The known extensions are lower case already. */
  lemma LowerKnown(ext: string)
    requires Known(ext)
    ensures Lower(ext) == ext
  {
  }

  /** A temporary path has no '.' before the file's name. */
  lemma TempPrefixNoDot(name: string)
    ensures forall k :: 0 <= k < 5 ==> TempPath(name)[k] != '.'
  {
    var n := TempPath(name);
    forall k | 0 <= k < 5 ensures n[k] != '.' {
      assert n[k] == "temp_"[k];
    }
  }

  lemma TempPathNoDot(name: string)
    requires '.' !in name
    ensures forall k :: 0 <= k < |TempPath(name)| ==> TempPath(name)[k] != '.'
  {
    TempPrefixNoDot(name);
    var n := TempPath(name);
    forall k | 5 <= k < |n| ensures n[k] != '.' {
      assert n[k] == name[k - 5];
    }
  }

  /** A name without '.' has no suffix, so the file is skipped. */
  lemma NoSuffixSkipped(name: string)
    requires '/' !in name && '.' !in name
    ensures Classify(TempPath(name)) == Unsupported
  {
    TempPathName(name);
    TempPathNoDot(name);
    assert Suffix(TempPath(name)) == [];
  }

  /** `A.PDF` is treated as a PDF. */
  lemma UpperCasePdf()
    ensures Classify(TempPath("A.PDF")) == Pdf
  {
    assert "A.PDF"[1..] == ".PDF";
    LowerPdf();
    ClassifiedIfEnding("A.PDF", ".pdf");
  }

  /** `data.csv` is skipped. */
  lemma CsvSkipped()
    ensures Classify(TempPath("data.csv")) == Unsupported
  {
    var name := "data.csv";
    var e4, e5 := name[4..], name[3..];
    assert e4 == ".csv" && e5 == "a.csv";
    assert Lower(e4)[1] == 'c' && Lower(e5)[0] == 'a';
    ClassifiedByEnding(name, ".pdf");
    ClassifiedByEnding(name, ".txt");
    ClassifiedByEnding(name, ".docx");
  }

  /** `notes.txt` goes to the text loader. */
  lemma NotesTxt()
    ensures Classify(TempPath("notes.txt")) == Txt
  {
    assert "notes.txt"[5..] == ".txt";
    LowerKnown(".txt");
    ClassifiedIfEnding("notes.txt", ".txt");
  }

  lemma LowerPdf()
    ensures Lower(".PDF") == ".pdf"
  {
    var l := Lower(".PDF");
    assert l[0] == '.' && l[1] == 'p' && l[2] == 'd' && l[3] == 'f';
  }

  /** A skipped file followed by a text file loads the text file's documents only. */
  lemma SkippedThenLoaded(a: UploadedFile, b: UploadedFile, load: Loader, ds: seq<Document>)
    requires !Supported(a) && Classify(TempPath(b.name)) == Txt
    requires load(Txt, TempPath(b.name), b.content) == Some(ds)
    ensures Loaded([a, b], load) == ds
  {
    var each := f => LoadOne(f, load);
    assert each(a) == [] && each(b) == ds;
    assert [a, b][..1] == [a] && [a][..0] == [];
    assert Concat([a], each) == [];
    assert Concat([a, b], each) == Concat([a], each) + each(b);
  }

  /** `data.csv` then `notes.txt`: the `.csv` is skipped and only the text loader's documents come out. */
  lemma CsvSkippedTxtLoaded(a: UploadedFile, b: UploadedFile, load: Loader, ds: seq<Document>)
    requires a.name == "data.csv" && b.name == "notes.txt"
    requires load(Txt, TempPath(b.name), b.content) == Some(ds)
    ensures Loaded([a, b], load) == ds
  {
    CsvSkipped();
    NotesTxt();
    SkippedThenLoaded(a, b, load, ds);
  }

  /** One more file: its contribution and its temporary path are added. */
  lemma LoadedStep(files: seq<UploadedFile>, i: nat, load: Loader)
    requires i < |files|
    ensures Loaded(files[..i + 1], load) == Loaded(files[..i], load) + LoadOne(files[i], load)
    ensures TempPaths(files[..i + 1]) == TempPaths(files[..i]) + {TempPath(files[i].name)}
  {
    assert files[..i + 1][..i] == files[..i];
  }

  /** `NoneOf` holds exactly when no element is `bad`. */
  lemma {:induction false} NoneOfAll<T>(s: seq<T>, bad: T -> bool)
    ensures NoneOf(s, bad) <==> forall j :: 0 <= j < |s| ==> !bad(s[j])
    decreases |s|
  {
    if s != [] {
      var init := s[..|s| - 1];
      NoneOfAll(init, bad);
      assert forall j :: 0 <= j < |s| - 1 ==> init[j] == s[j];
    }
  }

  /** One more element that is not `bad`. */
  lemma NoneOfStep<T>(s: seq<T>, i: nat, bad: T -> bool)
    requires i < |s|
    ensures NoneOf(s[..i + 1], bad) <==> NoneOf(s[..i], bad) && !bad(s[i])
  {
    assert s[..i + 1][..i] == s[..i];
  }

  /** An element before a prefix with no `bad` element is not `bad`. */
  lemma PrefixNoneOf<T>(s: seq<T>, bad: T -> bool, n: int, j: int)
    requires 0 <= j < n <= |s| && NoneOf(s[..n], bad)
    ensures !bad(s[j])
  {
    NoneOfAll(s[..n], bad);
    assert s[..n][j] == s[j];
  }

  /** At most one element is the first `bad` one. */
  lemma FirstOfUnique<T>(s: seq<T>, bad: T -> bool, k: int, k': int)
    requires FirstOf(s, bad, k) && FirstOf(s, bad, k')
    ensures k == k'
  {
    if k < k' {
      PrefixNoneOf(s, bad, k', k);
    } else if k' < k {
      PrefixNoneOf(s, bad, k, k');
    }
  }

  /** When some element is `bad`, there is a first `bad` one. */
  lemma {:induction false} FirstOfExists<T>(s: seq<T>, bad: T -> bool)
    requires !NoneOf(s, bad)
    ensures exists k :: FirstOf(s, bad, k)
    decreases |s|
  {
    var n := |s|;
    var init := s[..n - 1];
    if NoneOf(init, bad) {
      assert FirstOf(s, bad, n - 1);
    } else {
      FirstOfExists(init, bad);
      var k :| FirstOf(init, bad, k);
      assert init[..k] == s[..k] && init[k] == s[k];
      assert FirstOf(s, bad, k);
    }
  }

  /** At most one file is the first whose loader raises. */
  lemma FirstFailureUnique(files: seq<UploadedFile>, load: Loader, k: int, k': int)
    requires FirstFailure(files, load, k) && FirstFailure(files, load, k')
    ensures k == k'
  {
    FirstOfUnique(files, FailsWith(load), k, k');
  }

  /** When some loader raises, there is a first file whose loader raises. */
  lemma FirstFailureExists(files: seq<UploadedFile>, load: Loader)
    requires exists j :: 0 <= j < |files| && Fails(files[j], load)
    ensures exists k :: FirstFailure(files, load, k)
  {
    var bad := FailsWith(load);
    var j :| 0 <= j < |files| && Fails(files[j], load);
    assert bad(files[j]);
    NoneOfAll(files, bad);
    FirstOfExists(files, bad);
    var k :| FirstOf(files, bad, k);
    assert FirstFailure(files, load, k);
  }

  /** Writing a file and removing it again leaves the file system without that path. */
  lemma WriteThenRemove(m: FileSystem, fs: FileSystem, gone: set<string>, p: string, c: seq<byte>)
    requires m == fs - gone
    ensures m[p := c] - {p} == fs - (gone + {p})
  {
    var l, r := m[p := c] - {p}, fs - (gone + {p});
    assert l.Keys == r.Keys;
    forall k | k in l.Keys ensures l[k] == r[k] {
    }
  }

  // ---------------------------------------------------------------------------
  // The processing loop
  // ---------------------------------------------------------------------------

  /**
   * `process_uploaded_files`: the documents of the supported files in input
   * order. Every temporary file is written and removed within its own
   * iteration, so afterwards the file system is as before, less the
   * temporary paths. When a loader raises, the batch stops there: no
   * documents are returned and that file's temporary copy stays behind.
   */
  method ProcessUploadedFiles(files: seq<UploadedFile>, fs: FileSystem, load: Loader)
    returns (docs: Option<seq<Document>>, fs': FileSystem)
    ensures docs.Some? <==> forall j :: 0 <= j < |files| ==> !Fails(files[j], load)
    ensures docs.Some? ==> docs.value == Loaded(files, load) && fs' == fs - TempPaths(files)
    ensures docs.None? ==>
      exists k :: FirstFailure(files, load, k) &&
        fs' == (fs - TempPaths(files[..k]))[TempPath(files[k].name) := files[k].content]
  {
    var acc := [];
    fs' := fs;
    for i := 0 to |files|
      invariant acc == Loaded(files[..i], load)
      invariant fs' == fs - TempPaths(files[..i])
      invariant NoneOf(files[..i], FailsWith(load))
    {
      LoadedStep(files, i, load);
      NoneOfStep(files, i, FailsWith(load));
      var file := files[i];
      var tempPath := TempPath(file.name);
      WriteThenRemove(fs', fs, TempPaths(files[..i]), tempPath, file.content);
      fs' := fs'[tempPath := file.content];
      var kind := Classify(tempPath);
      if kind == Unsupported {
        fs' := fs' - {tempPath};
        continue;
      }
      var loaded := load(kind, tempPath, fs'[tempPath]);
      if loaded.None? {
        assert FirstFailure(files, load, i);
        docs := None;
        return;
      }
      acc := acc + loaded.value;
      fs' := fs' - {tempPath};
    }
    assert files[..|files|] == files;
    NoneOfAll(files, FailsWith(load));
    docs := Some(acc);
  }
}
