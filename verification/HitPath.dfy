/**
 Serving hits. Whatever the save path stored and however an entry came into the memory cache, what a GET client decodes
 is the stored body, the slice Content-Range names, or nothing. The codecs are a parameter with the law that decoding
 inverts encoding.
 */
module HitPath {
  import opened Wrappers
  import opened ByteRanges
  import opened ContentCoding
  import opened CacheContents

  const MAX_MEMORY_ENTRY_BYTES: nat := 16 * 1024 * 1024

  datatype Codec = Codec(compressBr: (Bytes, nat) -> Option<Bytes>, decompressBr: Bytes -> Option<Bytes>,
                         encodeGzip: (Bytes, nat) -> Option<Bytes>, decodeGzip: Bytes -> Option<Bytes>)

  /** Decoding what was encoded gives it back. Encoding may fail. */
  ghost predicate Lawful(c: Codec) {
    && (forall b, level :: c.compressBr(b, level).Some? ==> c.decompressBr(c.compressBr(b, level).value) == Some(b))
    && (forall b, level :: c.encodeGzip(b, level).Some? ==> c.decodeGzip(c.encodeGzip(b, level).value) == Some(b))
  }

  // ---- One response ----

  /** The Range header of a request: missing, not text, or text. */
  datatype RangeHeader = Missing | Unreadable | Text(value: string)

  datatype RangeOutcome = Full | Partial(start: nat, end: nat) | Invalid

  datatype Response = Response(status: nat, body: Bytes, coding: Encoding, contentRange: Option<string>)

  /** The body of a 200 hit, and the coding it is in. */
  function SelectEncodedBody(c: Codec, body: Bytes, bodyBr: Option<Bytes>, hasRange: bool, gzipLevel: nat,
                             negotiated: Encoding): (Bytes, Encoding)
  {
    if hasRange || bodyBr.None? then (body, Identity)
    else
      match negotiated
      case Br => (bodyBr.value, Br)
      case Gzip =>
        (match c.decompressBr(bodyBr.value)
         case None => (body, Identity)
         case Some(raw) =>
           match c.encodeGzip(raw, gzipLevel)
           case None => (body, Identity)
           case Some(gz) => (gz, Gzip))
      case Identity => (body, Identity)
  }

  /** A partial outcome is always a slice of the body: taking it cannot fail. */
  function EvaluateRange(header: RangeHeader, total: nat): (o: RangeOutcome)
    ensures o.Partial? ==> o.start <= o.end < total
  {
    if !header.Text? then Full
    else
      ParsedRangeResolvesExactly(header.value, total);
      match ParseByteRange(header.value)
      case None => Full
      case Some(range) =>
        match ResolveRange(range, total)
        case None => Invalid
        case Some((start, end)) => Partial(start, end)
  }

  /** A GET hit in the memory or the disk cache. */
  function HitResponse(c: Codec, entry: Stored, range: RangeHeader, negotiated: Encoding, gzipLevel: nat): Response {
    var total := |entry.body|;
    match EvaluateRange(range, total)
    case Full =>
      var (body, coding) := SelectEncodedBody(c, entry.body, entry.bodyBr, !range.Missing?, gzipLevel, negotiated);
      Response(200, body, coding, None)
    case Partial(start, end) =>
      Response(206, entry.body[start..end + 1], Identity, Some(FormatContentRange(start, end, total)))
    case Invalid => Response(416, [], Identity, Some(FormatContentRangeUnsatisfied(total)))
  }

  /** What a client makes of a body in the coding its Content-Encoding names. */
  function Decode(c: Codec, r: Response): Option<Bytes> {
    match r.coding
    case Identity => Some(r.body)
    case Br => c.decompressBr(r.body)
    case Gzip => c.decodeGzip(r.body)
  }

  /** A pre-compressed variant, where there is one, decompresses to the body beside it. */
  ghost predicate Faithful(c: Codec, e: Stored) {
    e.bodyBr.Some? ==> c.decompressBr(e.bodyBr.value) == Some(e.body)
  }

  /** A 206 carries exactly the requested positions of the body, and its Content-Range names them. */
  ghost predicate SlicesExactly(body: Bytes, asked: ByteRange, r: Response, start: nat, end: nat) {
    && start <= end < |body|
    && r.status == 206 && r.coding == Identity && r.body == body[start..end + 1]
    && r.contentRange.Some? && NamesSlice(r.contentRange.value, start, end, |body|)
    && (forall p: nat :: Requested(asked, |body|, p) <==> start <= p <= end)
  }

  /** What a client may rely on when asking for `range` of `body`. */
  ghost predicate Transparent(c: Codec, body: Bytes, range: RangeHeader, r: Response) {
    var asked := if range.Text? then ParseByteRange(range.value) else None;
    if asked.None? then
      r.status == 200 && r.contentRange.None? && Decode(c, r) == Some(body)
    else if exists p: nat :: Requested(asked.value, |body|, p) then
      exists start: nat, end: nat :: SlicesExactly(body, asked.value, r, start, end)
    else
      && r.status == 416 && r.body == [] && r.coding == Identity
      && r.contentRange.Some? && NamesNoSlice(r.contentRange.value, |body|)
  }

  /** The 200 body decodes to the stored one, whatever is negotiated and even if re-encoding fails. */
  lemma SelectedBodyDecodes(c: Codec, entry: Stored, hasRange: bool, gzipLevel: nat, negotiated: Encoding)
    requires Lawful(c) && Faithful(c, entry)
    ensures var (body, coding) := SelectEncodedBody(c, entry.body, entry.bodyBr, hasRange, gzipLevel, negotiated);
            && Decode(c, Response(200, body, coding, None)) == Some(entry.body)
            && (hasRange ==> coding == Identity)
  {}

  lemma SliceIsExact(c: Codec, entry: Stored, header: string, start: nat, end: nat, negotiated: Encoding,
                     gzipLevel: nat)
    requires ParseByteRange(header).Some?
    requires ResolveRange(ParseByteRange(header).value, |entry.body|) == Some((start, end))
    ensures SlicesExactly(entry.body, ParseByteRange(header).value,
                          HitResponse(c, entry, Text(header), negotiated, gzipLevel), start, end)
  {
    ParsedRangeResolvesExactly(header, |entry.body|);
    FormattedNamesSlice(start, end, |entry.body|);
  }

  lemma HitIsTransparent(c: Codec, entry: Stored, range: RangeHeader, negotiated: Encoding, gzipLevel: nat)
    requires Lawful(c) && Faithful(c, entry)
    ensures Transparent(c, entry.body, range, HitResponse(c, entry, range, negotiated, gzipLevel))
  {
    var total := |entry.body|;
    SelectedBodyDecodes(c, entry, !range.Missing?, gzipLevel, negotiated);
    if range.Text? && ParseByteRange(range.value).Some? {
      var asked := ParseByteRange(range.value).value;
      ParsedRangeResolvesExactly(range.value, total);
      match ResolveRange(asked, total) {
        case None => FormattedNamesNoSlice(total);
        case Some((start, end)) =>
          assert Requested(asked, total, start);
          SliceIsExact(c, entry, range.value, start, end, negotiated, gzipLevel);
      }
    }
  }

  /** Without a Range header the negotiated coding is the one applied, if a variant is stored and, for gzip, encoding
      the body succeeds; br is answered with the stored variant. In every other case the body goes out as it is. */
  ghost predicate CodedAsNegotiated(c: Codec, entry: Stored, range: RangeHeader, negotiated: Encoding, gzipLevel: nat,
                                    r: Response)
  {
    if !range.Missing? || entry.bodyBr.None? then r.coding == Identity
    else
      && r.status == 200
      && (negotiated == Br ==> r.coding == Br && r.body == entry.bodyBr.value)
      && (negotiated == Gzip && c.encodeGzip(entry.body, gzipLevel).Some? ==>
            r.coding == Gzip && r.body == c.encodeGzip(entry.body, gzipLevel).value)
      && (negotiated == Gzip && c.encodeGzip(entry.body, gzipLevel).None? ==>
            r.coding == Identity && r.body == entry.body)
      && (negotiated == Identity ==> r.coding == Identity && r.body == entry.body)
  }

  lemma HitIsCodedAsNegotiated(c: Codec, entry: Stored, range: RangeHeader, negotiated: Encoding, gzipLevel: nat)
    requires Faithful(c, entry)
    ensures CodedAsNegotiated(c, entry, range, negotiated, gzipLevel,
                              HitResponse(c, entry, range, negotiated, gzipLevel))
  {}

  // ---- The save path ----

  /** `worthIt(br, body)` is the test, made in floats, that the variant is at most nine tenths of the body. */
  datatype CompressConfig = CompressConfig(enabled: bool, minBytes: nat, maxBytes: nat, brLevel: nat,
                                           worthIt: (nat, nat) -> bool)

  /** What the origin sent, and what the image optimizer makes of it if it is consulted and succeeds. */
  datatype Fetched = Fetched(body: Bytes, contentType: Option<string>, contentEncoding: Option<string>,
                             headers: Headers, isImage: bool, optimized: Option<(Bytes, string)>)

  /** What the background save stores: an optimized image, or the body, with a variant if that is worth it. */
  function SavedForm(c: Codec, config: CompressConfig, f: Fetched): Stored {
    if f.isImage then
      match f.optimized
      case Some((bytes, contentType)) => Stored(bytes, Some(contentType), None, f.headers)
      case None => Stored(f.body, f.contentType, None, f.headers)
    else if config.enabled && ShouldCompress(f.contentType, f.contentEncoding, |f.body|, config.minBytes)
            && |f.body| <= config.maxBytes then
      match c.compressBr(f.body, config.brLevel)
      case Some(br) =>
        Stored(f.body, f.contentType, if config.worthIt(|br|, |f.body|) then Some(br) else None, f.headers)
      case None => Stored(f.body, f.contentType, None, f.headers)
    else Stored(f.body, f.contentType, None, f.headers)
  }

  lemma SavedFormIsFaithful(c: Codec, config: CompressConfig, f: Fetched)
    requires Lawful(c)
    ensures Faithful(c, SavedForm(c, config, f))
  {}

  /** What is to be served later: the optimizer's image if it made one, otherwise the body the origin sent. */
  function ServedBody(f: Fetched): Bytes {
    if f.isImage && f.optimized.Some? then f.optimized.value.0 else f.body
  }

  /** A variant is worth storing: compression is on, the response is no image, of a compressible type and within the
      sizes, and compressing it succeeds and saves enough. */
  predicate WorthVariant(c: Codec, config: CompressConfig, f: Fetched) {
    && !f.isImage && config.enabled
    && ShouldCompress(f.contentType, f.contentEncoding, |f.body|, config.minBytes)
    && config.minBytes <= |f.body| <= config.maxBytes
    && c.compressBr(f.body, config.brLevel).Some?
    && config.worthIt(|c.compressBr(f.body, config.brLevel).value|, |f.body|)
  }

  /** The entry keeps what was fetched: headers, body and type, and beside them the compressed body if and only if that
      is worth it. A variant that is empty counts as none. */
  ghost predicate Keeps(c: Codec, config: CompressConfig, f: Fetched, e: Stored) {
    && e.cachedHeaders == f.headers
    && e.body == ServedBody(f)
    && e.contentType == (if f.isImage && f.optimized.Some? then Some(f.optimized.value.1) else f.contentType)
    && (e.bodyBr.Some? ==> WorthVariant(c, config, f) && e.bodyBr == c.compressBr(f.body, config.brLevel))
    && (WorthVariant(c, config, f) && c.compressBr(f.body, config.brLevel).value != [] ==> e.bodyBr.Some?)
  }

  lemma SavedFormKeeps(c: Codec, config: CompressConfig, f: Fetched)
    ensures Keeps(c, config, f, SavedForm(c, config, f))
    ensures Keeps(c, config, f, SavedForm(c, config, f).(bodyBr := Variant(SavedForm(c, config, f).bodyBr)))
  {}

  // ---- Runs over both caches ----

  datatype Caches = Caches(memory: map<string, Stored>, disk: map<string, Stored>)

  /** Saves and promotions interleaved with whatever drops entries. The disk may ignore a save (too large, or no room
      left) and evicts others for it; the memory cache evicts as it likes. */
  datatype Event =
    | Save(key: string, fetched: Fetched, config: CompressConfig, accepted: bool, evicted: set<string>)
    | DiskHit(key: string)
    | DropFromMemory(keys: set<string>)
    | DropFromDisk(keys: set<string>)

  function Small(e: Stored): bool { |e.body| <= MAX_MEMORY_ENTRY_BYTES }

  function Step(c: Codec, s: Caches, e: Event): Caches {
    match e
    case Save(key, fetched, config, accepted, evicted) =>
      var form := SavedForm(c, config, fetched);
      Caches(if Small(form) then s.memory[key := form] else s.memory,
             if accepted then Apply(s.disk, Accepted(key, form.(bodyBr := Variant(form.bodyBr)), None, evicted))
             else s.disk)
    case DiskHit(key) =>
      if key in s.disk && Small(s.disk[key]) then s.(memory := s.memory[key := s.disk[key]]) else s
    case DropFromMemory(keys) => s.(memory := s.memory - keys)
    case DropFromDisk(keys) => s.(disk := Apply(s.disk, Dropped(keys)))
  }

  function RunFrom(c: Codec, s: Caches, events: seq<Event>): Caches
    decreases |events|
  {
    if events == [] then s else RunFrom(c, Step(c, s, events[0]), events[1..])
  }

  ghost predicate AllFaithful(c: Codec, s: Caches) {
    && (forall k :: k in s.memory ==> Faithful(c, s.memory[k]))
    && (forall k :: k in s.disk ==> Faithful(c, s.disk[k]))
  }

  lemma StepKeepsFaithful(c: Codec, s: Caches, e: Event)
    requires Lawful(c) && AllFaithful(c, s)
    ensures AllFaithful(c, Step(c, s, e))
  {
    if e.Save? { SavedFormIsFaithful(c, e.config, e.fetched); }
  }

  lemma {:induction false} RunKeepsFaithful(c: Codec, s: Caches, events: seq<Event>)
    requires Lawful(c) && AllFaithful(c, s)
    ensures AllFaithful(c, RunFrom(c, s, events))
    decreases |events|
  {
    if events != [] {
      StepKeepsFaithful(c, s, events[0]);
      RunKeepsFaithful(c, Step(c, s, events[0]), events[1..]);
    }
  }

  /** Transparent, and in the coding that was negotiated. */
  ghost predicate Serves(c: Codec, e: Stored, range: RangeHeader, negotiated: Encoding, gzipLevel: nat, r: Response) {
    Transparent(c, e.body, range, r) && CodedAsNegotiated(c, e, range, negotiated, gzipLevel, r)
  }

  /** After any run of saves, promotions, evictions and purges, every hit in either cache is transparent for every
      Range and Accept-Encoding, and in the coding that was negotiated. */
  lemma EveryHitIsTransparent(c: Codec, events: seq<Event>, key: string, range: RangeHeader,
                              acceptEncoding: Option<string>, positive: string -> Option<bool>, gzipLevel: nat)
    requires Lawful(c)
    ensures var s, coding := RunFrom(c, Caches(map[], map[]), events), Negotiated(acceptEncoding, positive);
            && (key in s.memory ==> Serves(c, s.memory[key], range, coding, gzipLevel,
                                           HitResponse(c, s.memory[key], range, coding, gzipLevel)))
            && (key in s.disk ==> Serves(c, s.disk[key], range, coding, gzipLevel,
                                         HitResponse(c, s.disk[key], range, coding, gzipLevel)))
  {
    RunKeepsFaithful(c, Caches(map[], map[]), events);
    var s, coding := RunFrom(c, Caches(map[], map[]), events), Negotiated(acceptEncoding, positive);
    if key in s.memory {
      HitIsTransparent(c, s.memory[key], range, coding, gzipLevel);
      HitIsCodedAsNegotiated(c, s.memory[key], range, coding, gzipLevel);
    }
    if key in s.disk {
      HitIsTransparent(c, s.disk[key], range, coding, gzipLevel);
      HitIsCodedAsNegotiated(c, s.disk[key], range, coding, gzipLevel);
    }
  }

  lemma {:induction false} RunSnoc(c: Codec, s: Caches, events: seq<Event>, e: Event)
    ensures RunFrom(c, s, events + [e]) == Step(c, RunFrom(c, s, events), e)
    decreases |events|
  {
    if events == [] {
      assert ([] + [e])[1..] == [];
    } else {
      assert (events + [e])[1..] == events[1..] + [e];
      RunSnoc(c, Step(c, s, events[0]), events[1..], e);
    }
  }

  /** A save of `key` that the disk accepts and, if asked, that is small enough for memory. */
  predicate Replaces(e: Event, key: string, small: bool) {
    && e.Save? && e.key == key && e.accepted
    && (small ==> |ServedBody(e.fetched)| <= 16 * 1024 * 1024)
  }

  /** `entry` keeps what save `i` of `key` fetched, and no later save replaced it. */
  ghost predicate FromSave(c: Codec, events: seq<Event>, i: nat, key: string, entry: Stored, small: bool) {
    && i < |events| && events[i].Save? && events[i].key == key
    && Keeps(c, events[i].config, events[i].fetched, entry)
    && (forall j :: i < j < |events| ==> !Replaces(events[j], key, small))
  }

  ghost predicate Newest(c: Codec, events: seq<Event>, key: string, entry: Stored, small: bool) {
    exists i :: FromSave(c, events, i, key, entry, small)
  }

  lemma StillNewest(c: Codec, events: seq<Event>, e: Event, key: string, entry: Stored, small: bool)
    requires Newest(c, events, key, entry, small) && !Replaces(e, key, small)
    ensures Newest(c, events + [e], key, entry, small)
  {
    var i :| FromSave(c, events, i, key, entry, small);
    assert forall j :: 0 <= j < |events| ==> (events + [e])[j] == events[j];
    assert FromSave(c, events + [e], i, key, entry, small);
  }

  lemma NewestNow(c: Codec, events: seq<Event>, e: Event, key: string, entry: Stored, small: bool)
    requires e.Save? && e.key == key && Keeps(c, e.config, e.fetched, entry)
    ensures Newest(c, events + [e], key, entry, small)
  {
    assert FromSave(c, events + [e], |events|, key, entry, small);
  }

  lemma NewestAmongSmall(c: Codec, events: seq<Event>, key: string, entry: Stored)
    requires Newest(c, events, key, entry, false)
    ensures Newest(c, events, key, entry, true)
  {
    var i :| FromSave(c, events, i, key, entry, false);
    assert forall j :: 0 <= j < |events| && Replaces(events[j], key, true) ==> Replaces(events[j], key, false);
    assert FromSave(c, events, i, key, entry, true);
  }

  lemma NewestAfterStep(c: Codec, events: seq<Event>, s: Caches, e: Event, key: string)
    requires key in s.disk ==> Newest(c, events, key, s.disk[key], false)
    requires key in s.memory ==> Newest(c, events, key, s.memory[key], true)
    ensures var s' := Step(c, s, e);
            && (key in s'.disk ==> Newest(c, events + [e], key, s'.disk[key], false))
            && (key in s'.memory ==> Newest(c, events + [e], key, s'.memory[key], true))
  {
    var s' := Step(c, s, e);
    if e.Save? { SavedFormKeeps(c, e.config, e.fetched); }
    if key in s'.disk {
      if Replaces(e, key, false) { NewestNow(c, events, e, key, s'.disk[key], false); }
      else { StillNewest(c, events, e, key, s'.disk[key], false); }
    }
    if key in s'.memory {
      if e.Save? && e.key == key && |ServedBody(e.fetched)| <= MAX_MEMORY_ENTRY_BYTES {
        NewestNow(c, events, e, key, s'.memory[key], true);
      } else {
        if e.DiskHit? && e.key == key && s'.memory != s.memory { NewestAmongSmall(c, events, key, s.disk[key]); }
        StillNewest(c, events, e, key, s'.memory[key], true);
      }
    }
  }

  /** After any run a disk hit serves what the last save of its key that the disk accepted had fetched, and a memory hit
      serves a save after which none of that key was both accepted by the disk and small enough for memory. */
  lemma {:induction false} HitsServeTheNewestSave(c: Codec, events: seq<Event>, key: string)
    ensures var s := RunFrom(c, Caches(map[], map[]), events);
            && (key in s.disk ==> Newest(c, events, key, s.disk[key], false))
            && (key in s.memory ==> Newest(c, events, key, s.memory[key], true))
    decreases |events|
  {
    if events != [] {
      var n := |events| - 1;
      var rest, e := events[..n], events[n];
      HitsServeTheNewestSave(c, rest, key);
      RunSnoc(c, Caches(map[], map[]), rest, e);
      assert rest + [e] == events;
      NewestAfterStep(c, rest, RunFrom(c, Caches(map[], map[]), rest), e, key);
    }
  }

  // ---- What is saved stays until it is dropped ----

  /** The event puts an entry of `key` on disk. */
  predicate PutsOnDisk(e: Event, key: string) {
    e.Save? && e.key == key && e.accepted
  }

  /** The event takes `key` off the disk: dropped, or evicted for another key. */
  predicate TakesOffDisk(e: Event, key: string) {
    match e
    case Save(k, _, _, accepted, evicted) => accepted && k != key && key in evicted
    case DropFromDisk(keys) => key in keys
    case _ => false
  }

  /** The event puts an entry of `key` into memory, given whether and how large it is on disk. */
  predicate PutsInMemory(e: Event, key: string, onDisk: Option<nat>) {
    match e
    case Save(k, fetched, _, _, _) => k == key && |ServedBody(fetched)| <= 16 * 1024 * 1024
    case DiskHit(k) => k == key && onDisk.Some? && onDisk.value <= 16 * 1024 * 1024
    case _ => false
  }

  predicate TakesOutOfMemory(e: Event, key: string) {
    e.DropFromMemory? && key in e.keys
  }

  function SizeOnDisk(s: Caches, key: string): Option<nat> {
    if key in s.disk then Some(|s.disk[key].body|) else None
  }

  /** After any step a key is cached if the step put it there, or it was there and the step did not take it away; and
      what the step neither put nor took is untouched. */
  lemma CachedAfterStep(c: Codec, s: Caches, e: Event, key: string)
    ensures var s' := Step(c, s, e);
            && (key in s'.disk <==> PutsOnDisk(e, key) || (key in s.disk && !TakesOffDisk(e, key)))
            && (key in s'.disk && !PutsOnDisk(e, key) ==> s'.disk[key] == s.disk[key])
            && (key in s'.memory <==>
                  PutsInMemory(e, key, SizeOnDisk(s, key)) || (key in s.memory && !TakesOutOfMemory(e, key)))
            && (key in s'.memory && !PutsInMemory(e, key, SizeOnDisk(s, key)) ==> s'.memory[key] == s.memory[key])
            && (key in s'.memory && e.DiskHit? && PutsInMemory(e, key, SizeOnDisk(s, key)) ==>
                  s'.memory[key] == s.disk[key])
  {
    if e.Save? { SavedFormKeeps(c, e.config, e.fetched); }
  }

  /** Save `i` put `key` on disk, and nothing after it took it off. */
  ghost predicate PutAndKeptOnDisk(events: seq<Event>, i: nat, key: string) {
    && i < |events| && PutsOnDisk(events[i], key)
    && (forall j :: i < j < |events| ==> !TakesOffDisk(events[j], key))
  }

  /** After any run a key is on disk if and only if some accepted save of it was followed by nothing that took it
      off. */
  lemma {:induction false} OnDiskExactly(c: Codec, events: seq<Event>, key: string)
    ensures key in RunFrom(c, Caches(map[], map[]), events).disk <==> exists i :: PutAndKeptOnDisk(events, i, key)
    decreases |events|
  {
    if events != [] {
      var n := |events| - 1;
      var rest, e := events[..n], events[n];
      var before := RunFrom(c, Caches(map[], map[]), rest);
      OnDiskExactly(c, rest, key);
      RunSnoc(c, Caches(map[], map[]), rest, e);
      assert rest + [e] == events;
      CachedAfterStep(c, before, e, key);
      assert forall j :: 0 <= j < n ==> rest[j] == events[j];
      if PutsOnDisk(e, key) {
        assert PutAndKeptOnDisk(events, n, key);
      } else if key in before.disk && !TakesOffDisk(e, key) {
        var i :| PutAndKeptOnDisk(rest, i, key);
        assert PutAndKeptOnDisk(events, i, key);
      }
      if i: nat :| PutAndKeptOnDisk(events, i, key) && i < n { assert PutAndKeptOnDisk(rest, i, key); }
    }
  }
}
