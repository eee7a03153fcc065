/** The file store: upload validation, the `{id}_{filename}` storage key that
    save and load share, the suffix dispatch of the loader, and the file-info
    record returned after an upload. Writing the bytes, creating the directory,
    drawing the uuid and parsing the file are not modelled: the id and the
    parsed frame are inputs. */
module FileService {
  import opened Frames

  type Byte = x: int | 0 <= x < 256

  const MAX_FILE_SIZE: int := 50 * 1024 * 1024
  const ALLOWED_EXTENSIONS: seq<string> := ["csv", "xlsx"]
  const UPLOAD_DIR: string := "uploads"

  /** `f"File size exceeds {MAX_FILE_SIZE} bytes"` */
  const SIZE_MESSAGE: string := "File size exceeds 52428800 bytes"
  /** `f"File type not allowed. Allowed: {ALLOWED_EXTENSIONS}"` */
  const TYPE_MESSAGE: string := "File type not allowed. Allowed: ['csv', 'xlsx']"
  const VALID_MESSAGE: string := "valid"

  /** `s.split(sep)[-1]`: the longest suffix of `s` that holds no `sep`. */
  function AfterLast(s: string, sep: char): (r: string)
    ensures |r| <= |s| && r == s[|s| - |r|..]
    ensures sep !in r
    ensures |r| < |s| ==> s[|s| - |r| - 1] == sep
  {
    if |s| == 0 then ""
    else if s[|s| - 1] == sep then ""
    else
      var init := s[..|s| - 1];
      var rest := AfterLast(init, sep);
      assert rest == s[|s| - 1 - |rest|..|s| - 1];
      rest + [s[|s| - 1]]
  }

  /** `str.lower()` on ASCII letters. */
  function LowerChar(c: char): char {
    if 'A' <= c <= 'Z' then (c as int + 32) as char else c
  }

  function Lower(s: string): string {
    seq(|s|, i requires 0 <= i < |s| => LowerChar(s[i]))
  }

  /** `filename.split(".")[-1].lower()` */
  function Extension(filename: string): string {
    Lower(AfterLast(filename, '.'))
  }

  /** The extension is the lower-cased text after the last dot. */
  lemma ExtensionAfterLastDot(filename: string, k: nat)
    requires k < |filename| && filename[k] == '.'
    requires '.' !in filename[k + 1..]
    ensures Extension(filename) == Lower(filename[k + 1..])
  {
    var r := AfterLast(filename, '.');
    assert r == filename[k + 1..];
  }

  /** A name with no dot is its own extension. */
  lemma ExtensionWithoutDot(filename: string)
    requires '.' !in filename
    ensures Extension(filename) == Lower(filename)
  {
    assert AfterLast(filename, '.') == filename;
  }

  /** `validate_file`: the size bound first, then the extension. */
  function ValidateFile(filename: string, size: int): (r: (bool, string))
    ensures r.0 <==> size <= MAX_FILE_SIZE && Extension(filename) in ALLOWED_EXTENSIONS
    ensures r.0 ==> r.1 == VALID_MESSAGE
    ensures size > MAX_FILE_SIZE ==> r.1 == SIZE_MESSAGE
    ensures size <= MAX_FILE_SIZE && !r.0 ==> r.1 == TYPE_MESSAGE
  {
    if size > MAX_FILE_SIZE then (false, SIZE_MESSAGE)
    else if Extension(filename) !in ALLOWED_EXTENSIONS then (false, TYPE_MESSAGE)
    else (true, VALID_MESSAGE)
  }

  /** The bound is inclusive: exactly MAX_FILE_SIZE bytes pass, one more byte
      fails with the size message, whatever the name. */
  lemma SizeBoundary(filename: string)
    ensures ValidateFile("data.csv", MAX_FILE_SIZE) == (true, VALID_MESSAGE)
    ensures ValidateFile(filename, MAX_FILE_SIZE + 1) == (false, SIZE_MESSAGE)
  {
    ExtensionAfterLastDot("data.csv", 4);
    assert Lower("csv") == "csv";
  }

  /** The extension test ignores case: "DATA.CSV" validates. */
  lemma UpperCaseExtensionValidates()
    ensures ValidateFile("DATA.CSV", 100) == (true, VALID_MESSAGE)
  {
    ExtensionAfterLastDot("DATA.CSV", 4);
    assert Lower("CSV") == "csv";
  }

  /** Only the text after the last dot counts. */
  lemma LastDotCounts()
    ensures ValidateFile("report.v2.xlsx", 100) == (true, VALID_MESSAGE)
  {
    ExtensionAfterLastDot("report.v2.xlsx", 9);
    assert Lower("xlsx") == "xlsx";
  }

  /** A name without a dot is its own extension: "csv" validates. */
  lemma DotlessNameValidates()
    ensures ValidateFile("csv", 100) == (true, VALID_MESSAGE)
  {
    ExtensionWithoutDot("csv");
    assert Lower("csv") == "csv";
  }

  /** A .txt file fails with the type message. */
  lemma TextFileRejected()
    ensures ValidateFile("notes.txt", 100) == (false, TYPE_MESSAGE)
  {
    ExtensionAfterLastDot("notes.txt", 5);
    assert Lower("txt") == "txt";
  }

  /** `f"{file_id}_{filename}"` */
  function StorageKey(fileId: string, filename: string): string {
    fileId + "_" + filename
  }

  /** `os.path.join(UPLOAD_DIR, key)`: a key that starts with '/' is absolute
      and replaces the directory. */
  function StoragePath(fileId: string, filename: string): string {
    var key := StorageKey(fileId, filename);
    if key[0] == '/' then key else UPLOAD_DIR + "/" + key
  }

  /** The text of `str(uuid.uuid4())`: lower-case hex digits and hyphens. */
  predicate GeneratedId(id: string) {
    forall i :: 0 <= i < |id| ==> id[i] in "0123456789abcdef-"
  }

  /** Splits `s` around its first `sep`. */
  function SplitAtFirst(s: string, sep: char): Option<(string, string)> {
    if s == [] then None
    else if s[0] == sep then Some(([], s[1..]))
    else match SplitAtFirst(s[1..], sep)
      case None => None
      case Some(parts) => Some(([s[0]] + parts.0, parts.1))
  }

  lemma {:induction false} SplitAtFirstOfJoin(a: string, sep: char, b: string)
    requires sep !in a
    ensures SplitAtFirst(a + [sep] + b, sep) == Some((a, b))
  {
    if a == [] {
      assert (a + [sep] + b)[1..] == b;
    } else {
      SplitAtFirstOfJoin(a[1..], sep, b);
      assert (a + [sep] + b)[1..] == a[1..] + [sep] + b;
      assert [a[0]] + a[1..] == a;
    }
  }

  /** Reads the id and the filename back from a stored path. */
  function ParseStoragePath(path: string): Option<(string, string)> {
    var prefix := UPLOAD_DIR + "/";
    if |path| >= |prefix| && path[..|prefix|] == prefix then SplitAtFirst(path[|prefix|..], '_')
    else None
  }

  /** The storage key round-trips: the path of an upload names its id and
      its filename, so no two uploads with distinct ids share a path. */
  lemma StoragePathRoundTrip(fileId: string, filename: string)
    requires GeneratedId(fileId)
    ensures ParseStoragePath(StoragePath(fileId, filename)) == Some((fileId, filename))
  {
    assert '_' !in fileId;
    var key := StorageKey(fileId, filename);
    assert key[0] != '/' by {
      if fileId != [] { assert key[0] == fileId[0]; }
    }
    var path := StoragePath(fileId, filename);
    assert path[|UPLOAD_DIR + "/"|..] == fileId + ['_'] + filename;
    SplitAtFirstOfJoin(fileId, '_', filename);
  }

  lemma StoragePathInjective(id1: string, name1: string, id2: string, name2: string)
    requires GeneratedId(id1) && GeneratedId(id2)
    requires StoragePath(id1, name1) == StoragePath(id2, name2)
    ensures id1 == id2 && name1 == name2
  {
    StoragePathRoundTrip(id1, name1);
    StoragePathRoundTrip(id2, name2);
  }

  /** What `save_file` writes and returns; the directory creation and the write
      itself are I/O. `fileId` is the uuid it draws. */
  datatype SavedFile = SavedFile(fileId: string, path: string, content: seq<Byte>)

  function SaveFile(content: seq<Byte>, filename: string, fileId: string): (r: SavedFile)
    ensures r.fileId == fileId && r.content == content
    ensures GeneratedId(fileId) ==> ParseStoragePath(r.path) == Some((fileId, filename))
  {
    if GeneratedId(fileId) then StoragePathRoundTrip(fileId, filename); SavedFile(fileId, StoragePath(fileId, filename), content)
    else SavedFile(fileId, StoragePath(fileId, filename), content)
  }

  predicate EndsWith(s: string, suffix: string) {
    |suffix| <= |s| && s[|s| - |suffix|..] == suffix
  }

  datatype Reader = ReadCsv | ReadExcel

  /** The file `load_dataframe` opens and the pandas reader it picks. */
  datatype LoadPlan = LoadPlan(path: string, reader: Reader)

  function UnsupportedFormat(filename: string): string {
    "Unsupported file format: " + filename
  }

  /** `load_dataframe`: the case-sensitive suffix dispatch, as written. */
  function LoadDataframe(fileId: string, filename: string): (r: Outcome<LoadPlan>)
    ensures r.Returned? <==> EndsWith(filename, ".csv") || EndsWith(filename, ".xlsx")
    ensures r.Returned? ==> r.value.reader == (if EndsWith(filename, ".csv") then ReadCsv else ReadExcel)
    ensures r.Raised? ==> r.message == UnsupportedFormat(filename)
  {
    var path := StoragePath(fileId, filename);
    if EndsWith(filename, ".csv") then Returned(LoadPlan(path, ReadCsv))
    else if EndsWith(filename, ".xlsx") then Returned(LoadPlan(path, ReadExcel))
    else Raised(UnsupportedFormat(filename))
  }

  /** Load opens exactly the file save wrote. */
  lemma LoadOpensSavedFile(content: seq<Byte>, filename: string, fileId: string)
    requires LoadDataframe(fileId, filename).Returned?
    ensures LoadDataframe(fileId, filename).value.path == SaveFile(content, filename, fileId).path
  {
  }

  /** Every name the loader accepts also passes validation. */
  lemma LoadableNamesValidate(fileId: string, filename: string, size: int)
    requires size <= MAX_FILE_SIZE
    requires LoadDataframe(fileId, filename).Returned?
    ensures ValidateFile(filename, size) == (true, VALID_MESSAGE)
  {
    if EndsWith(filename, ".csv") {
      SuffixExtension(filename, ".csv");
    } else {
      assert EndsWith(filename, ".xlsx");
      SuffixExtension(filename, ".xlsx");
    }
  }

  /** A name ending in ".csv" or ".xlsx" has "csv" or "xlsx" as its extension. */
  lemma SuffixExtension(filename: string, suffix: string)
    requires suffix == ".csv" || suffix == ".xlsx"
    requires EndsWith(filename, suffix)
    ensures Extension(filename) == suffix[1..]
    ensures Extension(filename) in ALLOWED_EXTENSIONS
  {
    var k := |filename| - |suffix|;
    var ext := suffix[1..];
    assert ext == "csv" || ext == "xlsx";
    assert filename[k] == suffix[0] == '.';
    assert filename[k + 1..] == ext;
    ExtensionAfterLastDot(filename, k);
    assert Lower(ext) == ext;
  }

  /** The converse fails: an upper-case suffix, or a bare "csv", validates and
      is saved, but the loader raises on it. */
  lemma ValidatedButNotLoadable(fileId: string)
    ensures ValidateFile("DATA.CSV", 100).0 && LoadDataframe(fileId, "DATA.CSV") == Raised(UnsupportedFormat("DATA.CSV"))
    ensures ValidateFile("csv", 100).0 && LoadDataframe(fileId, "csv") == Raised(UnsupportedFormat("csv"))
  {
    UpperCaseExtensionValidates();
    DotlessNameValidates();
    assert "DATA.CSV"[4..] != ".csv";
    assert "DATA.CSV"[3..] != ".xlsx";
  }

  /** The loader as the validator implies it was meant to be: the reader is
      chosen by the same lower-cased extension the validator tests. */
  function LoadDataframeByExtension(fileId: string, filename: string): (r: Outcome<LoadPlan>)
    ensures r.Returned? <==> Extension(filename) in ALLOWED_EXTENSIONS
    ensures r.Returned? ==> r.value.path == StoragePath(fileId, filename)
  {
    var path := StoragePath(fileId, filename);
    var ext := Extension(filename);
    if ext !in ALLOWED_EXTENSIONS then Raised(UnsupportedFormat(filename))
    else if ext == "csv" then Returned(LoadPlan(path, ReadCsv))
    else Returned(LoadPlan(path, ReadExcel))
  }

  /** With the corrected loader, every validated upload can be loaded. */
  lemma ValidatedFilesLoad(fileId: string, filename: string, size: int)
    requires ValidateFile(filename, size).0
    ensures LoadDataframeByExtension(fileId, filename).Returned?
  {
  }

  /** `get_file_info`; `now` stands for `datetime.now().isoformat()`. */
  datatype FileInfo = FileInfo(id: string, filename: string, rows: nat, columns: nat,
                               columnNames: seq<string>, uploadTime: string)

  function GetFileInfo(f: Frame, fileId: string, filename: string, now: string): (r: FileInfo)
    ensures r.id == fileId && r.filename == filename && r.uploadTime == now
    ensures r.rows == f.rowCount
    ensures r.columns == |r.columnNames| == |f.columns|
    ensures forall i :: 0 <= i < |f.columns| ==> r.columnNames[i] == f.columns[i].name
  {
    FileInfo(fileId, filename, f.rowCount, |f.columns|,
             seq(|f.columns|, i requires 0 <= i < |f.columns| => f.columns[i].name), now)
  }
}
