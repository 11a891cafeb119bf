/**
 The plain map a disk cache stands for: what its index and its files hold together, how the operations change it, and
 what that means over a whole run.
 */
module CacheContents {
  import opened Wrappers
  import opened CacheIndex

  const MAX_CACHED_HEADERS_BYTES: nat := 8 * 1024
  const NANOS_PER_SECOND: nat := 1_000_000_000

  // ---- File names ----

  /** The position of the last dot, or -1. */
  function LastDot(name: string): (i: int)
    ensures -1 <= i < |name|
  {
    if name == "" then -1
    else if name[|name| - 1] == '.' then |name| - 1
    else LastDot(name[..|name| - 1])
  }

  /** A file name without its extension. A leading dot starts no extension. */
  function Stem(name: string): string {
    if LastDot(name) <= 0 then name else name[..LastDot(name)]
  }

  /** Path::with_extension on a file name: what follows the last dot is replaced, unless that dot is leading. */
  function WithExtension(name: string, ext: string): string {
    Stem(name) + "." + ext
  }

  function BrPath(key: Key): string { WithExtension(key, "br") }
  function HeadersPath(key: Key): string { key + ".headers.json" }
  function FilesOf(key: Key): set<string> { {key, BrPath(key), HeadersPath(key)} }

  /** What two different keys need, for their files to differ. */
  predicate Separate(j: Key, k: Key) {
    Stem(j) != Stem(k) && j != HeadersPath(k) && k != HeadersPath(j)
  }

  lemma {:induction false} LastDotIsLast(name: string)
    ensures LastDot(name) >= 0 ==> name[LastDot(name)] == '.'
    ensures forall j :: LastDot(name) < j < |name| ==> name[j] != '.'
  {
    if name != "" { LastDotIsLast(name[..|name| - 1]); }
  }

  lemma StemOfBr(k: Key)
    requires k != ""
    ensures Stem(BrPath(k)) == Stem(k)
  {
    var path := BrPath(k);
    assert path[|Stem(k)|] == '.' && path[|Stem(k)| + 1] == 'b' && path[|Stem(k)| + 2] == 'r';
    LastDotIsLast(path);
    assert LastDot(path) == |Stem(k)|;
  }

  lemma SameSuffix(j: string, k: string, suffix: string)
    ensures j + suffix == k + suffix ==> j == k
  {
    if j + suffix == k + suffix {
      assert j == (j + suffix)[..|j|] && k == (k + suffix)[..|k|];
    }
  }

  lemma BrIsNoHeaders(j: Key, k: Key)
    ensures BrPath(j) != HeadersPath(k) && k != HeadersPath(k)
  {
    assert BrPath(j)[|BrPath(j)| - 1] == 'r' && HeadersPath(k)[|HeadersPath(k)| - 1] == 'n';
  }

  /** Two keys share no file if and only if their stems differ and neither is the other's headers file. */
  lemma FilesDisjointExactly(j: Key, k: Key)
    requires j != "" && k != "" && j != k
    ensures FilesOf(j) !! FilesOf(k) <==> Separate(j, k)
  {
    StemOfBr(j);
    StemOfBr(k);
    SameSuffix(Stem(j), Stem(k), ".br");
    SameSuffix(j, k, ".headers.json");
    BrIsNoHeaders(j, k);
    BrIsNoHeaders(k, j);
    assert BrPath(j) == Stem(j) + ".br" && BrPath(k) == Stem(k) + ".br";
    assert j in FilesOf(j) && BrPath(j) in FilesOf(j) && HeadersPath(j) in FilesOf(j);
    assert k in FilesOf(k) && BrPath(k) in FilesOf(k) && HeadersPath(k) in FilesOf(k);
  }

  /** The key names a file, and is not the name of its own pre-compressed file. */
  predicate ThreeFiles(k: Key) { k != "" && k != BrPath(k) }

  /** Each of these keys has three files, and no two share any. */
  ghost predicate SeparateFiles(keys: set<Key>) {
    && (forall k {:trigger ThreeFiles(k)} :: k in keys ==> ThreeFiles(k))
    && (forall j, k {:trigger Separate(j, k)} :: j in keys && k in keys && j != k ==> Separate(j, k))
  }

  /** Keys without dots, as hexadecimal digests are, always have separate files. */
  lemma FilesDoNotCollide(keys: set<Key>)
    requires forall k :: k in keys ==> k != "" && '.' !in k
    ensures SeparateFiles(keys)
  {
    forall k | k in keys ensures Stem(k) == k && ThreeFiles(k) && '.' in HeadersPath(k) {
      LastDotIsLast(k);
      assert HeadersPath(k)[|k|] == '.';
      assert BrPath(k)[|Stem(k)|] == '.';
    }
  }

  // ---- What the index and the disk together hold ----

  datatype Stored = Stored(body: Bytes, contentType: Option<string>, bodyBr: Option<Bytes>, cachedHeaders: Headers)
  datatype Hit = Hit(stored: Stored, isStale: bool, expiresAtSecs: int)

  /** The files an index entry promises are there. */
  ghost predicate OnDisk(k: Key, e: Entry, files: map<string, Bytes>) {
    k in files && |files[k]| == e.sizeBytes && (e.hasBr ==> BrPath(k) in files)
  }

  ghost predicate AllOnDisk(index: Index, files: map<string, Bytes>) {
    forall k :: k in index ==> OnDisk(k, index[k], files)
  }

  ghost function StoredAt(k: Key, e: Entry, files: map<string, Bytes>): Stored
    requires OnDisk(k, e, files)
  {
    Stored(files[k], e.contentType, if e.hasBr then Some(files[BrPath(k)]) else None, e.cachedHeaders)
  }

  /** The plain map the cache stands for. */
  ghost function ContentsOf(index: Index, files: map<string, Bytes>): map<Key, Stored>
    requires AllOnDisk(index, files)
  {
    map k | k in index :: StoredAt(k, index[k], files)
  }

  /** An empty pre-compressed variant is treated as none. */
  function Variant(br: Option<Bytes>): Option<Bytes> {
    if br.Some? && br.value != [] then br else None
  }

  ghost function WithoutFiles(files: map<string, Bytes>, keys: set<Key>): map<string, Bytes> {
    map p | p in files && (forall k :: k in keys ==> p !in FilesOf(k)) :: files[p]
  }

  /** The disk after the three writes of a put. */
  function Written(files: map<string, Bytes>, key: Key, body: Bytes, br: Option<Bytes>, headers: Headers, json: Bytes):
    map<string, Bytes>
  {
    var withBody := files[key := body];
    var withBr := if Variant(br).Some? then withBody[BrPath(key) := br.value] else withBody;
    if headers != [] && |json| <= MAX_CACHED_HEADERS_BYTES then withBr[HeadersPath(key) := json] else withBr
  }

  /** A removal leaves no body, variant or headers file of a removed key, and every other file as it was. */
  lemma RemovedFiles(files: map<string, Bytes>, gone: set<Key>, path: string)
    ensures var left := WithoutFiles(files, gone);
            && (forall k :: k in gone ==> k !in left && BrPath(k) !in left && HeadersPath(k) !in left)
            && ((forall k :: k in gone ==> path != k && path != BrPath(k) && path != HeadersPath(k)) ==>
                  (path in left <==> path in files) && (path in files ==> left[path] == files[path]))
  {
    forall k | k in gone
      ensures k !in WithoutFiles(files, gone) && BrPath(k) !in WithoutFiles(files, gone)
      ensures HeadersPath(k) !in WithoutFiles(files, gone)
    {
      assert k in FilesOf(k) && BrPath(k) in FilesOf(k) && HeadersPath(k) in FilesOf(k);
    }
  }

  lemma RemovalKeepsTheRest(index: Index, files: map<string, Bytes>, gone: set<Key>)
    requires AllOnDisk(index, files) && SeparateFiles(index.Keys) && gone <= index.Keys
    ensures AllOnDisk(index - gone, WithoutFiles(files, gone))
    ensures ContentsOf(index - gone, WithoutFiles(files, gone)) == ContentsOf(index, files) - gone
  {
    forall k | k in index - gone
      ensures k in WithoutFiles(files, gone)
      ensures BrPath(k) in files ==> BrPath(k) in WithoutFiles(files, gone)
    {
      assert OnDisk(k, index[k], files);
      forall j | j in gone ensures k !in FilesOf(j) && BrPath(k) !in FilesOf(j) {
        assert Separate(j, k) && ThreeFiles(j) && ThreeFiles(k);
        FilesDisjointExactly(j, k);
        assert k in FilesOf(k) && BrPath(k) in FilesOf(k);
      }
    }
    forall k | k in index - gone ensures OnDisk(k, index[k], WithoutFiles(files, gone)) {
      assert OnDisk(k, index[k], files);
    }
  }

  /** A put leaves the body in the file named by the key, a variant that is not empty beside it, and headers whose text
      has at most 8192 bytes in the headers file. */
  lemma WrittenFiles(files: map<string, Bytes>, key: Key, body: Bytes, br: Option<Bytes>, headers: Headers, json: Bytes)
    ensures var files' := Written(files, key, body, br, headers, json);
            && key in files' && (key != BrPath(key) ==> files'[key] == body)
            && (br.Some? && |br.value| > 0 ==> BrPath(key) in files' && files'[BrPath(key)] == br.value)
            && (headers != [] && |json| <= 8192 ==>
                  HeadersPath(key) in files' && files'[HeadersPath(key)] == json)
            && ((br.None? || |br.value| == 0) && key != BrPath(key) ==>
                  files' - {key, HeadersPath(key)} == files - {key, HeadersPath(key)})
            && (headers == [] || |json| > 8192 ==>
                  files' - {key, BrPath(key)} == files - {key, BrPath(key)})
  {
    BrIsNoHeaders(key, key);
  }

  /** A put writes no file but its own three. */
  lemma WrittenElsewhere(files: map<string, Bytes>, key: Key, body: Bytes, br: Option<Bytes>, headers: Headers,
                         json: Bytes, path: string)
    requires path !in FilesOf(key)
    ensures var files' := Written(files, key, body, br, headers, json);
            && (path in files' <==> path in files)
            && (path in files ==> files'[path] == files[path])
  {
    assert path != key && path != BrPath(key) && path != HeadersPath(key);
  }

  lemma WrittenBeside(files: map<string, Bytes>, key: Key, body: Bytes, br: Option<Bytes>, headers: Headers,
                      json: Bytes, k: Key, e: Entry)
    requires key != "" && k != "" && k != key && Separate(key, k) && OnDisk(k, e, files)
    ensures var files' := Written(files, key, body, br, headers, json);
            OnDisk(k, e, files') && StoredAt(k, e, files') == StoredAt(k, e, files)
  {
    FilesDisjointExactly(key, k);
    assert k in FilesOf(k) && BrPath(k) in FilesOf(k);
    WrittenElsewhere(files, key, body, br, headers, json, k);
    WrittenElsewhere(files, key, body, br, headers, json, BrPath(k));
  }

  lemma WrittenHere(files: map<string, Bytes>, key: Key, e: Entry, body: Bytes, br: Option<Bytes>, headers: Headers,
                    json: Bytes)
    requires key != BrPath(key) && e.sizeBytes == |body| && e.hasBr == Variant(br).Some?
    ensures var files' := Written(files, key, body, br, headers, json);
            && OnDisk(key, e, files')
            && StoredAt(key, e, files') == Stored(body, e.contentType, Variant(br), e.cachedHeaders)
  {
    BrIsNoHeaders(key, key);
  }

  lemma WriteKeepsOthers(index: Index, files: map<string, Bytes>, key: Key, body: Bytes, br: Option<Bytes>,
                         headers: Headers, json: Bytes)
    requires AllOnDisk(index, files) && SeparateFiles(index.Keys + {key})
    ensures var files' := Written(files, key, body, br, headers, json);
            forall k :: k in index && k != key ==>
              OnDisk(k, index[k], files') && StoredAt(k, index[k], files') == StoredAt(k, index[k], files)
  {
    var files' := Written(files, key, body, br, headers, json);
    var keys := index.Keys + {key};
    assert key in keys;
    forall k | k in index && k != key
      ensures OnDisk(k, index[k], files') && StoredAt(k, index[k], files') == StoredAt(k, index[k], files)
    {
      assert k in keys && Separate(key, k) && ThreeFiles(k) && ThreeFiles(key);
      WrittenBeside(files, key, body, br, headers, json, k, index[k]);
    }
  }

  /** A disk that holds `e` under `key`, and what it held under every other key, holds the updated contents. */
  lemma ContentsAfter(index: Index, files: map<string, Bytes>, files': map<string, Bytes>, key: Key, e: Entry)
    requires AllOnDisk(index, files) && OnDisk(key, e, files')
    requires forall k :: k in index && k != key ==>
               OnDisk(k, index[k], files') && StoredAt(k, index[k], files') == StoredAt(k, index[k], files)
    ensures AllOnDisk(index[key := e], files')
    ensures ContentsOf(index[key := e], files') == ContentsOf(index, files)[key := StoredAt(key, e, files')]
  {}

  lemma WriteStores(index: Index, files: map<string, Bytes>, key: Key, e: Entry, body: Bytes, br: Option<Bytes>,
                    headers: Headers, json: Bytes)
    requires AllOnDisk(index, files) && SeparateFiles(index.Keys + {key})
    requires e.sizeBytes == |body| && e.hasBr == Variant(br).Some?
    ensures var files' := Written(files, key, body, br, headers, json);
            && AllOnDisk(index[key := e], files')
            && ContentsOf(index[key := e], files')
               == ContentsOf(index, files)[key := Stored(body, e.contentType, Variant(br), e.cachedHeaders)]
  {
    assert index[key := e].Keys == index.Keys + {key};
    assert key in index.Keys + {key} && ThreeFiles(key);
    WrittenHere(files, key, e, body, br, headers, json);
    WriteKeepsOthers(index, files, key, body, br, headers, json);
    ContentsAfter(index, files, Written(files, key, body, br, headers, json), key, e);
  }

  /** Keys with dots may collide: these two share a pre-compressed file, so that storing a variant under one replaces
      the variant of the other. */
  lemma DottedKeysShareAFile(files: map<string, Bytes>, body: Bytes, br: Bytes, headers: Headers, json: Bytes)
    requires br != []
    ensures BrPath("page.a") == BrPath("page.b")
    ensures Written(files, "page.b", body, Some(br), headers, json)[BrPath("page.a")] == br
  {
    assert "page.a"[..4] == "page.b"[..4];
    LastDotIsLast("page.a");
    LastDotIsLast("page.b");
    assert LastDot("page.a") == 4 by { assert "page.a"[4] == '.' && "page.a"[5] == 'a'; }
    assert LastDot("page.b") == 4 by { assert "page.b"[4] == '.' && "page.b"[5] == 'b'; }
    BrIsNoHeaders("page.b", "page.b");
  }

  // ---- When files keep apart what is put under different keys ----

  /** What puts and removals do to the disk. */
  datatype FileOp =
    | Write(key: Key, body: Bytes, br: Option<Bytes>, headers: Headers, json: Bytes)
    | Delete(keys: set<Key>)

  /** A body and its pre-compressed variant, as put or as read. */
  type Reading = (Bytes, Option<Bytes>)

  ghost function Perform(files: map<string, Bytes>, op: FileOp): map<string, Bytes> {
    match op
    case Write(key, body, br, headers, json) => Written(files, key, body, br, headers, json)
    case Delete(keys) => WithoutFiles(files, keys)
  }

  ghost function PerformAll(ops: seq<FileOp>): map<string, Bytes> {
    if ops == [] then map[] else Perform(PerformAll(ops[..|ops| - 1]), ops[|ops| - 1])
  }

  /** What was last put under `k`, if it has not been removed since. */
  function LastPut(ops: seq<FileOp>, k: Key): Option<Reading> {
    if ops == [] then None
    else
      match ops[|ops| - 1]
      case Write(key, body, br, _, _) => if key == k then Some((body, Variant(br))) else LastPut(ops[..|ops| - 1], k)
      case Delete(keys) => if k in keys then None else LastPut(ops[..|ops| - 1], k)
  }

  /** How a hit is read: the body, and the variant if the entry says there is one and its file is there. */
  function Read(files: map<string, Bytes>, k: Key, hasBr: bool): Option<Reading> {
    if k !in files then None
    else Some((files[k], if hasBr && BrPath(k) in files then Some(files[BrPath(k)]) else None))
  }

  ghost predicate Over(ops: seq<FileOp>, keys: set<Key>) {
    forall i :: 0 <= i < |ops| ==> match ops[i] case Write(key, _, _, _, _) => key in keys case Delete(ks) => ks <= keys
  }

  /** Whatever is there reads back as it was last put. */
  ghost predicate ReadsBack(ops: seq<FileOp>) {
    forall k :: LastPut(ops, k).Some? ==>
      Read(PerformAll(ops), k, LastPut(ops, k).value.1.Some?) == LastPut(ops, k)
  }

  lemma RemoveKeepsReading(files: map<string, Bytes>, gone: set<Key>, k: Key, hasBr: bool)
    requires k != "" && k !in gone && forall j :: j in gone ==> j != "" && Separate(j, k)
    ensures Read(WithoutFiles(files, gone), k, hasBr) == Read(files, k, hasBr)
  {
    forall j | j in gone ensures k !in FilesOf(j) && BrPath(k) !in FilesOf(j) {
      FilesDisjointExactly(j, k);
      assert k in FilesOf(k) && BrPath(k) in FilesOf(k);
    }
  }

  lemma WriteKeepsReading(files: map<string, Bytes>, w: FileOp, k: Key, hasBr: bool)
    requires w.Write? && w.key != "" && k != "" && k != w.key && Separate(w.key, k)
    ensures Read(Perform(files, w), k, hasBr) == Read(files, k, hasBr)
  {
    FilesDisjointExactly(w.key, k);
    assert k in FilesOf(k) && BrPath(k) in FilesOf(k);
    WrittenElsewhere(files, w.key, w.body, w.br, w.headers, w.json, k);
    WrittenElsewhere(files, w.key, w.body, w.br, w.headers, w.json, BrPath(k));
  }

  lemma WriteReads(files: map<string, Bytes>, w: FileOp)
    requires w.Write? && w.key != BrPath(w.key)
    ensures Read(Perform(files, w), w.key, Variant(w.br).Some?) == Some((w.body, Variant(w.br)))
  {
    BrIsNoHeaders(w.key, w.key);
  }

  lemma {:induction false} PutKeysAreOver(ops: seq<FileOp>, keys: set<Key>, k: Key)
    requires Over(ops, keys) && LastPut(ops, k).Some?
    ensures k in keys
  {
    var front := ops[..|ops| - 1];
    assert Over(ops[|ops| - 1..], keys) && Over(front, keys);
    if !(ops[|ops| - 1].Write? && ops[|ops| - 1].key == k) { PutKeysAreOver(front, keys, k); }
  }

  lemma StepReadsBack(front: seq<FileOp>, op: FileOp, keys: set<Key>, k: Key)
    requires SeparateFiles(keys) && Over([op], keys) && k in keys && ReadsBack(front)
    requires LastPut(front + [op], k).Some?
    ensures var want := LastPut(front + [op], k);
            Read(Perform(PerformAll(front), op), k, want.value.1.Some?) == want
  {
    var want, files := LastPut(front + [op], k), PerformAll(front);
    assert (front + [op])[..|front|] == front && [op][0] == op;
    assert ThreeFiles(k);
    if op.Write? && op.key == k {
      WriteReads(files, op);
    } else if op.Write? {
      assert ThreeFiles(op.key) && Separate(op.key, k);
      WriteKeepsReading(files, op, k, want.value.1.Some?);
    } else {
      forall j | j in op.keys ensures j != "" && Separate(j, k) { assert ThreeFiles(j) && Separate(j, k); }
      RemoveKeepsReading(files, op.keys, k, want.value.1.Some?);
    }
  }

  lemma {:induction false} SeparateReadsBack(ops: seq<FileOp>, keys: set<Key>)
    requires SeparateFiles(keys) && Over(ops, keys)
    ensures ReadsBack(ops)
  {
    if ops != [] {
      var front, op := ops[..|ops| - 1], ops[|ops| - 1];
      SeparateReadsBack(front, keys);
      forall k | LastPut(ops, k).Some?
        ensures Read(PerformAll(ops), k, LastPut(ops, k).value.1.Some?) == LastPut(ops, k)
      {
        PutKeysAreOver(ops, keys, k);
        assert ThreeFiles(k);
        StepReadsBack(front, op, keys, k);
      }
    }
  }

  lemma TwoWrites(a: FileOp, b: FileOp)
    requires a.Write? && b.Write?
    ensures PerformAll([a]) == Perform(map[], a) && PerformAll([a, b]) == Perform(Perform(map[], a), b)
    ensures LastPut([a], a.key) == Some((a.body, Variant(a.br)))
    ensures b.key != a.key ==> LastPut([a, b], a.key) == Some((a.body, Variant(a.br)))
  {
    assert [a][..0] == [] && [a, b][..1] == [a];
    assert PerformAll([]) == map[];
  }

  /** Two keys with one stem: the second variant replaces the first. */
  lemma SameStemMixesUp(j: Key, k: Key) returns (ops: seq<FileOp>)
    requires j != k && Stem(j) == Stem(k)
    ensures Over(ops, {j, k}) && !ReadsBack(ops)
  {
    var a, b := Write(j, [], Some([1]), [], []), Write(k, [], Some([2]), [], []);
    ops := [a, b];
    TwoWrites(a, b);
    assert PerformAll(ops)[BrPath(j)] == [2];
    assert LastPut(ops, j) == Some(([], Some([1])));
  }

  /** A key that is another's headers file: storing headers replaces its body. */
  lemma HeadersReplaceBody(j: Key, k: Key) returns (ops: seq<FileOp>)
    requires j == HeadersPath(k)
    ensures Over(ops, {j, k}) && !ReadsBack(ops)
  {
    BrIsNoHeaders(k, k);
    var a, b := Write(j, [], None, [], []), Write(k, [], None, [("x", "y")], [0]);
    ops := [a, b];
    TwoWrites(a, b);
    assert PerformAll(ops)[j] == [0];
    assert LastPut(ops, j) == Some(([], None));
  }

  /** A key that is its own variant's file: storing the variant replaces the body. */
  lemma VariantReplacesBody(k: Key) returns (ops: seq<FileOp>)
    requires k == BrPath(k)
    ensures Over(ops, {k}) && !ReadsBack(ops)
  {
    var a := Write(k, [0], Some([1]), [], []);
    ops := [a];
    TwoWrites(a, a);
    assert PerformAll(ops)[k] == [1];
    assert LastPut(ops, k) == Some(([0], Some([1])));
  }

  lemma CollidingRun(keys: set<Key>) returns (ops: seq<FileOp>)
    requires "" !in keys && !SeparateFiles(keys)
    ensures Over(ops, keys) && !ReadsBack(ops)
  {
    if k :| k in keys && !ThreeFiles(k) {
      ops := VariantReplacesBody(k);
    } else {
      var j, k :| j in keys && k in keys && j != k && !Separate(j, k);
      if Stem(j) == Stem(k) { ops := SameStemMixesUp(j, k); }
      else if j == HeadersPath(k) { ops := HeadersReplaceBody(j, k); }
      else { ops := HeadersReplaceBody(k, j); }
    }
  }

  /** Every run of puts and removals over a set of keys reads back what was last put, if and only if the keys have
      separate files. */
  lemma SeparateFilesExactly(keys: set<Key>)
    requires "" !in keys
    ensures SeparateFiles(keys) <==> forall ops :: Over(ops, keys) ==> ReadsBack(ops)
  {
    if SeparateFiles(keys) {
      forall ops | Over(ops, keys) ensures ReadsBack(ops) { SeparateReadsBack(ops, keys); }
    } else {
      var ops := CollidingRun(keys);
      assert Over(ops, keys) && !ReadsBack(ops);
    }
  }

  // ---- Runs of the plain map ----

  /** How an operation changes the plain map. */
  datatype Change =
    | Accepted(key: Key, stored: Stored, deadline: Option<int>, evicted: set<Key>)
    | Dropped(keys: set<Key>)

  function Apply(contents: map<Key, Stored>, c: Change): map<Key, Stored> {
    match c
    case Accepted(key, stored, _, evicted) => (contents - evicted)[key := stored]
    case Dropped(keys) => contents - keys
  }

  function ApplyAll(contents: map<Key, Stored>, changes: seq<Change>): map<Key, Stored>
    decreases |changes|
  {
    if changes == [] then contents else Apply(ApplyAll(contents, changes[..|changes| - 1]), changes[|changes| - 1])
  }

  lemma ApplyAllAppend(contents: map<Key, Stored>, changes: seq<Change>, c: Change)
    ensures ApplyAll(contents, changes + [c]) == Apply(ApplyAll(contents, changes), c)
  {
    assert (changes + [c])[..|changes|] == changes;
  }

  /** The last put of `k` that the cache accepted. */
  function LastAccepted(changes: seq<Change>, k: Key): Option<Stored> {
    if changes == [] then None
    else
      var last := changes[|changes| - 1];
      if last.Accepted? && last.key == k then Some(last.stored) else LastAccepted(changes[..|changes| - 1], k)
  }

  /** When the last put of `k` that the cache accepted is to expire, if ever. */
  function LastDeadline(changes: seq<Change>, k: Key): Option<int> {
    if changes == [] then None
    else
      var last := changes[|changes| - 1];
      if last.Accepted? && last.key == k then last.deadline else LastDeadline(changes[..|changes| - 1], k)
  }

  /** Every indexed entry expires when its last accepted put said. */
  ghost predicate Dated(index: Index, changes: seq<Change>) {
    forall k :: k in index ==> index[k].expiresAt == LastDeadline(changes, k)
  }

  lemma LastDeadlineAppend(changes: seq<Change>, c: Change, k: Key)
    ensures LastDeadline(changes + [c], k) == if c.Accepted? && c.key == k then c.deadline else LastDeadline(changes, k)
  {
    assert (changes + [c])[..|changes|] == changes;
  }

  lemma StillDated(index: Index, index': Index, changes: seq<Change>, gone: set<Key>)
    requires Dated(index, changes)
    requires forall k :: k in index' ==> k in index && index'[k].expiresAt == index[k].expiresAt
    ensures Dated(index', changes) && Dated(index', changes + [Dropped(gone)])
  {
    forall k | k in index' ensures index'[k].expiresAt == LastDeadline(changes + [Dropped(gone)], k) {
      LastDeadlineAppend(changes, Dropped(gone), k);
    }
  }

  lemma DatedAfterPut(index: Index, changes: seq<Change>, evicted: set<Key>, c: Change, e: Entry)
    requires Dated(index, changes) && c.Accepted? && e.expiresAt == c.deadline
    ensures Dated((index - evicted)[c.key := e], changes + [c])
  {
    var now := (index - evicted)[c.key := e];
    forall k | k in now ensures now[k].expiresAt == LastDeadline(changes + [c], k) {
      LastDeadlineAppend(changes, c, k);
    }
  }

  predicate Drops(c: Change, k: Key) {
    match c
    case Accepted(key, _, _, evicted) => key != k && k in evicted
    case Dropped(keys) => k in keys
  }

  /** Change `i` put `k`, and nothing after it dropped `k`. */
  ghost predicate PutAndKept(changes: seq<Change>, i: nat, k: Key)
    requires i < |changes|
  {
    && changes[i].Accepted? && changes[i].key == k
    && (forall j :: i < j < |changes| ==> !Drops(changes[j], k))
  }

  /** Something put `k`, and nothing dropped it since. */
  ghost predicate Kept(changes: seq<Change>, k: Key) {
    exists i :: 0 <= i < |changes| && PutAndKept(changes, i, k)
  }

  /** Whatever evictions, purges and expiries come between, a key that is present holds its last accepted put; and it
      is present if something put it and nothing dropped it since. */
  lemma {:induction false} ContentsAreLastAcceptedPuts(changes: seq<Change>, k: Key)
    ensures var contents := ApplyAll(map[], changes);
            && (k in contents ==> LastAccepted(changes, k) == Some(contents[k]))
            && (k in contents <==> Kept(changes, k))
  {
    if changes != [] {
      var n := |changes| - 1;
      var rest := changes[..n];
      ContentsAreLastAcceptedPuts(rest, k);
      var contents := ApplyAll(map[], changes);
      assert contents == Apply(ApplyAll(map[], rest), changes[n]);
      if k in contents {
        if changes[n].Accepted? && changes[n].key == k {
          assert PutAndKept(changes, n, k);
        } else {
          var i :| 0 <= i < |rest| && PutAndKept(rest, i, k);
          assert PutAndKept(changes, i, k) by {
            assert forall j :: i < j < n ==> changes[j] == rest[j];
          }
        }
      }
      if i :| 0 <= i < |changes| && PutAndKept(changes, i, k) && i < n {
        assert PutAndKept(rest, i, k);
      }
    }
  }
}
