/**
 Choosing a content coding from Accept-Encoding, and deciding whether to pre-compress a response. Reading a q-value is
 a parameter: `positive(v)` is None if `v` is not a number and otherwise tells whether it exceeds zero.
 */
module ContentCoding {
  import opened Text
  import opened Wrappers

  datatype Encoding = Br | Gzip | Identity

  lemma SplitOnceShrinks(s: string, c: char)
    ensures SplitOnce(s, c).Some? ==> |SplitOnce(s, c).value.1| < |s|
  {
    SplitOnceFindsFirst(s, c);
  }

  function Split(s: string, c: char): (parts: seq<string>)
    ensures |parts| >= 1
    decreases |s|
  {
    match SplitOnce(s, c)
    case None => [s]
    case Some((a, b)) => SplitOnceShrinks(s, c); [a] + Split(b, c)
  }

  function CodingName(item: string): string {
    ToLower(Trim(Split(item, ';')[0]))
  }

  /** The last readable q parameter decides; without one the coding is accepted. */
  function Accepts(params: seq<string>, positive: string -> Option<bool>): bool {
    if params == [] then true
    else
      var p := Trim(params[|params| - 1]);
      if "q=" <= p && positive(p[2..]).Some? then positive(p[2..]).value
      else Accepts(params[..|params| - 1], positive)
  }

  function Accepted(item: string, positive: string -> Option<bool>): bool {
    Accepts(Split(item, ';')[1..], positive)
  }

  predicate Names(item: string, name: string) {
    Trim(item) != "" && CodingName(Trim(item)) == name
  }

  predicate NamesAndAccepts(item: string, name: string, positive: string -> Option<bool>) {
    Names(item, name) && Accepted(Trim(item), positive)
  }

  /** Some item of the list names the coding. */
  predicate Lists(items: seq<string>, name: string) {
    exists i :: 0 <= i < |items| && Names(items[i], name)
  }

  /** Some item of the list names the coding and accepts it. */
  predicate Offers(items: seq<string>, name: string, positive: string -> Option<bool>) {
    exists i :: 0 <= i < |items| && NamesAndAccepts(items[i], name, positive)
  }

  /** The preference order: br (or anything) before gzip before no coding. */
  function Negotiated(acceptEncoding: Option<string>, positive: string -> Option<bool>): Encoding {
    if acceptEncoding.None? then Identity
    else
      var items := Split(acceptEncoding.value, ',');
      if Offers(items, "br", positive) || Offers(items, "*", positive) then Br
      else if Offers(items, "gzip", positive) then Gzip
      else Identity
  }

  lemma {:induction false} TrimStartDrops(s: string)
    ensures ',' in s ==> ',' in TrimStart(s)
  {
    if s != "" && IsWhite(s[0]) {
      TrimStartDrops(s[1..]);
      assert s == [s[0]] + s[1..];
    }
  }

  lemma {:induction false} TrimEndDrops(s: string)
    ensures ',' in s ==> ',' in TrimEnd(s)
  {
    if s != "" && IsWhite(s[|s| - 1]) {
      TrimEndDrops(s[..|s| - 1]);
      assert s == s[..|s| - 1] + [s[|s| - 1]];
    }
  }

  lemma {:induction false} BlankHasNoComma(s: string)
    requires Trim(s) == ""
    ensures ',' !in s
  {
    TrimStartDrops(s);
    TrimEndDrops(TrimStart(s));
  }

  lemma BlankOffersNothing(raw: string, positive: string -> Option<bool>)
    requires Trim(raw) == ""
    ensures Negotiated(Some(raw), positive) == Identity
  {
    BlankHasNoComma(raw);
    SplitOnceFindsFirst(raw, ',');
    assert Split(raw, ',') == [raw];
  }

  lemma OffersAppend(items: seq<string>, i: nat, name: string, positive: string -> Option<bool>)
    requires i < |items|
    ensures Offers(items[..i + 1], name, positive) <==>
            Offers(items[..i], name, positive) || NamesAndAccepts(items[i], name, positive)
  {
    var upto := items[..i + 1];
    assert upto[i] == items[i];
    if j :| 0 <= j < i && NamesAndAccepts(items[..i][j], name, positive) {
      assert upto[j] == items[..i][j];
    }
    if j :| 0 <= j < i + 1 && NamesAndAccepts(upto[j], name, positive) && j < i {
      assert items[..i][j] == upto[j];
    }
  }

  method ReadQ(params: seq<string>, positive: string -> Option<bool>) returns (accepted: bool)
    ensures accepted == Accepts(params, positive)
  {
    accepted := true;
    for i := 0 to |params|
      invariant accepted == Accepts(params[..i], positive)
    {
      var p := Trim(params[i]);
      assert params[..i + 1][..i] == params[..i];
      if "q=" <= p {
        var parsed := positive(p[2..]);
        if parsed.Some? { accepted := parsed.value; }
      }
    }
    assert params[..|params|] == params;
  }

  /** One item of the list: the coding it names and whether it accepts it. Nothing for a blank item. */
  method ReadItem(item: string, positive: string -> Option<bool>) returns (name: string, accepted: bool)
    ensures forall n :: NamesAndAccepts(item, n, positive) <==> accepted && name == n
  {
    var trimmed := Trim(item);
    if trimmed == "" { return "", false; }
    var parts := Split(trimmed, ';');
    name := ToLower(Trim(parts[0]));
    accepted := ReadQ(parts[1..], positive);
  }

  /** The three flags say which codings the items offer. */
  ghost predicate Tallied(items: seq<string>, br: bool, gzip: bool, star: bool, positive: string -> Option<bool>) {
    && br == Offers(items, "br", positive)
    && gzip == Offers(items, "gzip", positive)
    && star == Offers(items, "*", positive)
  }

  lemma TalliedStep(items: seq<string>, i: nat, br: bool, gzip: bool, star: bool, name: string, accepted: bool,
                 positive: string -> Option<bool>)
    requires i < |items| && Tallied(items[..i], br, gzip, star, positive)
    requires forall n :: NamesAndAccepts(items[i], n, positive) <==> accepted && name == n
    ensures Tallied(items[..i + 1], br || (accepted && name == "br"), gzip || (accepted && name == "gzip"),
                 star || (accepted && name == "*"), positive)
  {
    OffersAppend(items, i, "br", positive);
    OffersAppend(items, i, "gzip", positive);
    OffersAppend(items, i, "*", positive);
  }

  method NegotiateEncoding(acceptEncoding: Option<string>, positive: string -> Option<bool>) returns (e: Encoding)
    ensures e == Negotiated(acceptEncoding, positive)
  {
    if acceptEncoding.None? { return Identity; }
    var raw := acceptEncoding.value;
    if Trim(raw) == "" {
      BlankOffersNothing(raw, positive);
      return Identity;
    }
    var items := Split(raw, ',');
    var brOk, gzipOk, starOk := false, false, false;
    for i := 0 to |items|
      invariant Tallied(items[..i], brOk, gzipOk, starOk, positive)
    {
      var name, accepted := ReadItem(items[i], positive);
      TalliedStep(items, i, brOk, gzipOk, starOk, name, accepted, positive);
      if name == "br" && accepted { brOk := true; }
      else if name == "gzip" && accepted { gzipOk := true; }
      else if name == "*" && accepted { starOk := true; }
    }
    assert items[..|items|] == items;
    e := if brOk || starOk then Br else if gzipOk then Gzip else Identity;
  }

  /** The weight a parameter states: section 5.3.1 of RFC 7231 lets its name be in either case. None if it states none
      that can be read, otherwise whether it exceeds zero. */
  function Weight(p: string, positive: string -> Option<bool>): Option<bool> {
    if |p| >= 2 && Lower(p[0]) == 'q' && p[1] == '=' then positive(p[2..]) else None
  }

  /** Some parameter is a weight of zero. */
  predicate Refuses(params: seq<string>, positive: string -> Option<bool>) {
    exists i :: 0 <= i < |params| && Weight(Trim(params[i]), positive) == Some(false)
  }

  predicate RefusedItem(item: string, positive: string -> Option<bool>) {
    Refuses(Split(Trim(item), ';')[1..], positive)
  }

  predicate NamesAndAllows(item: string, name: string, positive: string -> Option<bool>) {
    Names(item, name) && !RefusedItem(item, positive)
  }

  /** Some item of the list names the coding without refusing it. */
  predicate Allowed(items: seq<string>, name: string, positive: string -> Option<bool>) {
    exists i :: 0 <= i < |items| && NamesAndAllows(items[i], name, positive)
  }

  /** Section 5.3.4 of RFC 7231: a coding is acceptable if it is listed and not refused, or unlisted and covered by a
      wildcard that is not refused. */
  predicate Acceptable(items: seq<string>, name: string, positive: string -> Option<bool>) {
    if Lists(items, name) then Allowed(items, name, positive) else Allowed(items, "*", positive)
  }

  function NameOf(e: Encoding): string {
    match e case Br => "br" case Gzip => "gzip" case Identity => "identity"
  }

  /** The name under which the applied coding was offered. */
  function Supplier(items: seq<string>, positive: string -> Option<bool>): string {
    if Offers(items, "br", positive) then "br" else if Offers(items, "*", positive) then "*" else "gzip"
  }

  /** Every item that supplies the coding also states a weight of zero. */
  predicate AllOverlooked(items: seq<string>, name: string, positive: string -> Option<bool>) {
    forall i :: 0 <= i < |items| && NamesAndAccepts(items[i], name, positive) ==> RefusedItem(items[i], positive)
  }

  predicate BrRefusedByName(items: seq<string>, positive: string -> Option<bool>) {
    Offers(items, "*", positive) && Lists(items, "br") && !Offers(items, "br", positive)
  }

  /** Parameters that do not accept the coding state a weight of zero. */
  lemma {:induction false} NotAcceptedIsRefused(params: seq<string>, positive: string -> Option<bool>)
    ensures !Accepts(params, positive) ==> Refuses(params, positive)
  {
    if params != [] {
      var n := |params| - 1;
      var p := Trim(params[n]);
      if "q=" <= p && positive(p[2..]).Some? {
        assert p[0] == 'q' && p[1] == '=';
        assert Weight(p, positive) == positive(p[2..]);
      } else {
        NotAcceptedIsRefused(params[..n], positive);
        if i :| 0 <= i < n && Weight(Trim(params[..n][i]), positive) == Some(false) {
          assert params[..n][i] == params[i];
        }
      }
    }
  }

  lemma AllowedIsOffered(items: seq<string>, name: string, positive: string -> Option<bool>)
    ensures Allowed(items, name, positive) ==> Offers(items, name, positive)
    ensures Offers(items, name, positive) ==> Lists(items, name)
    ensures Allowed(items, name, positive) <==>
            Offers(items, name, positive) && !AllOverlooked(items, name, positive)
  {
    if i :| 0 <= i < |items| && NamesAndAllows(items[i], name, positive) {
      NotAcceptedIsRefused(Split(Trim(items[i]), ';')[1..], positive);
      assert NamesAndAccepts(items[i], name, positive);
    }
    if i :| 0 <= i < |items| && NamesAndAccepts(items[i], name, positive) {
      assert Names(items[i], name);
    }
    if i :| 0 <= i < |items| && NamesAndAccepts(items[i], name, positive) && !RefusedItem(items[i], positive) {
      assert NamesAndAllows(items[i], name, positive);
    }
  }

  /** A coding is applied against the client's wish in exactly two cases: br is refused by name while a wildcard is
      accepted, or every item that supplies the coding states a weight of zero that goes unseen. */
  lemma AppliedCodingIsAcceptable(raw: string, positive: string -> Option<bool>)
    ensures var items, e := Split(raw, ','), Negotiated(Some(raw), positive);
            e != Identity ==>
              (Acceptable(items, NameOf(e), positive) <==>
               !BrRefusedByName(items, positive) && !AllOverlooked(items, Supplier(items, positive), positive))
  {
    var items := Split(raw, ',');
    AllowedIsOffered(items, "br", positive);
    AllowedIsOffered(items, "*", positive);
    AllowedIsOffered(items, "gzip", positive);
  }

  /** A client that allows br, or anything, gets br; one that allows gzip and lists neither gets gzip; one that lists
      none of the three, or sends no header, gets no coding. */
  lemma AllowedCodingIsApplied(raw: string, positive: string -> Option<bool>)
    ensures var items, e := Split(raw, ','), Negotiated(Some(raw), positive);
            && (Allowed(items, "br", positive) || Allowed(items, "*", positive) ==> e == Br)
            && (Allowed(items, "gzip", positive) && !Lists(items, "br") && !Lists(items, "*") ==> e == Gzip)
            && (!Lists(items, "br") && !Lists(items, "*") && !Lists(items, "gzip") ==> e == Identity)
    ensures Negotiated(None, positive) == Identity
  {
    AllowedIsOffered(Split(raw, ','), "br", positive);
    AllowedIsOffered(Split(raw, ','), "*", positive);
    AllowedIsOffered(Split(raw, ','), "gzip", positive);
  }

  /** A parameter that the code reads as a weight. */
  predicate Seen(p: string, positive: string -> Option<bool>) {
    "q=" <= p && positive(p[2..]).Some?
  }

  lemma SeenIsWeight(p: string, positive: string -> Option<bool>)
    ensures Seen(p, positive) <==> Weight(p, positive).Some? && p[0] == 'q'
  {
    if "q=" <= p { assert p[0] == 'q' && p[1] == '='; }
    if |p| >= 2 && p[0] == 'q' && p[1] == '=' { assert p[..2] == "q="; }
  }

  lemma {:induction false} UnseenAccepts(params: seq<string>, positive: string -> Option<bool>)
    requires forall i :: 0 <= i < |params| ==> !Seen(Trim(params[i]), positive)
    ensures Accepts(params, positive)
  {
    if params != [] {
      assert !Seen(Trim(params[|params| - 1]), positive);
      UnseenAccepts(params[..|params| - 1], positive);
    }
  }

  lemma {:induction false} LastSeenDecides(params: seq<string>, i: nat, positive: string -> Option<bool>)
    requires i < |params| && Seen(Trim(params[i]), positive)
    requires forall j :: i < j < |params| ==> !Seen(Trim(params[j]), positive)
    ensures Accepts(params, positive) == positive(Trim(params[i])[2..]).value
  {
    if i < |params| - 1 {
      assert !Seen(Trim(params[|params| - 1]), positive);
      LastSeenDecides(params[..|params| - 1], i, positive);
    }
  }

  lemma OneWeightDecides(params: seq<string>, i: nat, positive: string -> Option<bool>)
    requires i < |params| && Weight(Trim(params[i]), positive) == Some(false)
    requires forall j :: 0 <= j < |params| && j != i ==> Weight(Trim(params[j]), positive).None?
    ensures Accepts(params, positive) <==> Trim(params[i])[0] == 'Q'
  {
    forall j | 0 <= j < |params| && j != i ensures !Seen(Trim(params[j]), positive) {
      SeenIsWeight(Trim(params[j]), positive);
    }
    SeenIsWeight(Trim(params[i]), positive);
    if Trim(params[i])[0] == 'q' { LastSeenDecides(params, i, positive); }
    else { UnseenAccepts(params, positive); }
  }

  predicate UpperCaseZero(p: string, positive: string -> Option<bool>) {
    Weight(p, positive) == Some(false) && p[0] == 'Q'
  }

  /** An item with one weight at most, as the grammar has it, is accepted though refused if and only if it spells a
      weight of zero with an upper-case Q. */
  lemma OverlookedIsUpperCase(params: seq<string>, positive: string -> Option<bool>)
    requires forall i, j :: 0 <= i < j < |params| ==>
               Weight(Trim(params[i]), positive).None? || Weight(Trim(params[j]), positive).None?
    ensures Accepts(params, positive) && Refuses(params, positive) <==>
            exists i :: 0 <= i < |params| && UpperCaseZero(Trim(params[i]), positive)
  {
    forall i | 0 <= i < |params| && Weight(Trim(params[i]), positive) == Some(false)
      ensures Accepts(params, positive) <==> Trim(params[i])[0] == 'Q'
    {
      OneWeightDecides(params, i, positive);
    }
  }

  lemma SplitPair(a: string, c: char, b: string)
    requires c !in a && c !in b
    ensures Split(a + [c] + b, c) == [a, b]
  {
    JoinSplits(a, c, b);
    SplitOnceFindsFirst(b, c);
  }

  lemma RefusingHeaderSplits()
    ensures Split("br;q=0,*", ',') == ["br;q=0", "*"]
  {
    SplitPair("br;q=0", ',', "*");
    assert "br;q=0" + [','] + "*" == "br;q=0,*";
  }

  lemma PairOffers(a: string, b: string, positive: string -> Option<bool>)
    requires Names(a, "br") && RefusedItem(a, positive) && NamesAndAccepts(b, "*", positive) && !Names(b, "br")
    ensures Lists([a, b], "br") && !Allowed([a, b], "br", positive) && Offers([a, b], "*", positive)
  {
    assert Names([a, b][0], "br") && NamesAndAccepts([a, b][1], "*", positive);
  }

  lemma RefusedBr(q: char, positive: string -> Option<bool>)
    requires (q == 'q' || q == 'Q') && positive("0") == Some(false)
    ensures var item := "br;" + [q] + "=0";
            && Names(item, "br") && RefusedItem(item, positive)
            && (NamesAndAccepts(item, "br", positive) <==> q == 'Q')
  {
    var item, p := "br;" + [q] + "=0", [q] + "=0";
    assert Trim(item) == item && Trim(p) == p && Trim("br") == "br";
    SplitPair("br", ';', p);
    assert "br" + [';'] + p == item;
    assert ["br", p][1..] == [p];
    assert p[2..] == "0" && Weight(Trim([p][0]), positive) == Some(false);
    OneWeightDecides([p], 0, positive);
    assert ToLower("br") == "br";
  }

  lemma AcceptedWildcard(positive: string -> Option<bool>)
    ensures NamesAndAccepts("*", "*", positive) && !Names("*", "br")
  {
    assert Trim("*") == "*";
    SplitOnceFindsFirst("*", ';');
    assert Split("*", ';') == ["*"];
    assert ["*"][1..] == [];
    assert ToLower("*") == "*" && "*"[0] != "br"[0];
  }

  /** A header for the first case: br refused by name, everything else accepted, and br applied. */
  lemma RefusedBrIsApplied(positive: string -> Option<bool>)
    requires positive("0") == Some(false)
    ensures var items := Split("br;q=0,*", ',');
            Negotiated(Some("br;q=0,*"), positive) == Br && !Acceptable(items, "br", positive)
  {
    RefusingHeaderSplits();
    RefusedBr('q', positive);
    assert "br;" + ['q'] + "=0" == "br;q=0";
    AcceptedWildcard(positive);
    PairOffers("br;q=0", "*", positive);
  }

  lemma LoneItem(item: string, positive: string -> Option<bool>)
    requires ',' !in item && NamesAndAccepts(item, "br", positive) && RefusedItem(item, positive)
    ensures Negotiated(Some(item), positive) == Br && !Acceptable(Split(item, ','), "br", positive)
  {
    SplitOnceFindsFirst(item, ',');
    assert Split(item, ',') == [item];
    assert NamesAndAccepts([item][0], "br", positive) && Names([item][0], "br");
  }

  /** And for the second: br refused with an upper-case Q, and applied. */
  lemma UpperCaseRefusalIsApplied(positive: string -> Option<bool>)
    requires positive("0") == Some(false)
    ensures var items := Split("br;Q=0", ',');
            Negotiated(Some("br;Q=0"), positive) == Br && !Acceptable(items, "br", positive)
  {
    RefusedBr('Q', positive);
    assert "br;" + ['Q'] + "=0" == "br;Q=0";
    LoneItem("br;Q=0", positive);
  }

  // ---- Headers as clients write them ----

  /** A coding and its weight, if it states one. */
  datatype Offer = Offer(name: string, q: Option<string>)

  /** No separators and no white space. */
  predicate Plain(s: string) {
    forall c :: c in s ==> c != ',' && c != ';' && !IsWhite(c)
  }

  predicate PlainOffer(o: Offer) {
    o.name != "" && Plain(o.name) && (o.q.Some? ==> Plain(o.q.value))
  }

  function PrintOffer(o: Offer): string {
    match o.q
    case None => o.name
    case Some(q) => o.name + [';'] + ("q=" + q)
  }

  /** The list as header text. */
  function PrintOffers(os: seq<Offer>): string
    requires os != []
  {
    if |os| == 1 then PrintOffer(os[0]) else PrintOffer(os[0]) + [','] + PrintOffers(os[1..])
  }

  function Printed(os: seq<Offer>): seq<string> {
    seq(|os|, i requires 0 <= i < |os| => PrintOffer(os[i]))
  }

  /** Some offer of the coding, in any case of letters, is not weighted zero. */
  predicate Wanted(os: seq<Offer>, name: string, positive: string -> Option<bool>) {
    exists i :: 0 <= i < |os| && ToLower(os[i].name) == name
                && (os[i].q.None? || positive(os[i].q.value) != Some(false))
  }

  lemma NothingToSplit(s: string, c: char)
    requires c !in s
    ensures Split(s, c) == [s]
  {
    SplitOnceFindsFirst(s, c);
  }

  lemma PrintedIsPlain(o: Offer)
    requires PlainOffer(o)
    ensures ',' !in PrintOffer(o) && PrintOffer(o) != "" && Trim(PrintOffer(o)) == PrintOffer(o)
  {
    NothingToTrim(PrintOffer(o));
  }

  lemma PrintedParts(o: Offer)
    requires PlainOffer(o)
    ensures Split(PrintOffer(o), ';') == if o.q.None? then [o.name] else [o.name, "q=" + o.q.value]
  {
    if o.q.None? {
      NothingToSplit(o.name, ';');
    } else {
      var q := "q=" + o.q.value;
      SplitPair(o.name, ';', q);
      assert PrintOffer(o) == o.name + [';'] + q;
    }
  }

  lemma PrintedOffer(o: Offer, name: string, positive: string -> Option<bool>)
    requires PlainOffer(o)
    ensures NamesAndAccepts(PrintOffer(o), name, positive) <==>
            ToLower(o.name) == name && (o.q.None? || positive(o.q.value) != Some(false))
  {
    PrintedIsPlain(o);
    PrintedParts(o);
    NothingToTrim(o.name);
    if o.q.Some? {
      var p := "q=" + o.q.value;
      NothingToTrim(p);
      assert [o.name, p][1..] == [p] && p[2..] == o.q.value && "q=" <= p;
      assert Accepts([p][..0], positive);
      assert Accepts([p], positive) <==> positive(o.q.value) != Some(false);
    } else {
      assert [o.name][1..] == [];
    }
  }

  lemma {:induction false} PrintedSplits(os: seq<Offer>)
    requires os != [] && forall o :: o in os ==> PlainOffer(o)
    ensures Split(PrintOffers(os), ',') == Printed(os)
    decreases |os|
  {
    PrintedIsPlain(os[0]);
    if |os| == 1 {
      NothingToSplit(PrintOffer(os[0]), ',');
    } else {
      PrintedSplits(os[1..]);
      JoinSplits(PrintOffer(os[0]), ',', PrintOffers(os[1..]));
      assert Printed(os) == [PrintOffer(os[0])] + Printed(os[1..]);
    }
  }

  lemma PrintedOffers(os: seq<Offer>, name: string, positive: string -> Option<bool>)
    requires forall o :: o in os ==> PlainOffer(o)
    ensures Offers(Printed(os), name, positive) <==> Wanted(os, name, positive)
  {
    forall i | 0 <= i < |os|
      ensures NamesAndAccepts(Printed(os)[i], name, positive) <==>
              ToLower(os[i].name) == name && (os[i].q.None? || positive(os[i].q.value) != Some(false))
    {
      PrintedOffer(os[i], name, positive);
    }
  }

  /** Whatever codings and weights a client lists, the header that spells them gets br if br or a wildcard is wanted,
      otherwise gzip if that is wanted, otherwise no coding. */
  lemma SpelledOffersNegotiate(os: seq<Offer>, positive: string -> Option<bool>)
    requires os != [] && forall o :: o in os ==> PlainOffer(o)
    ensures var e := Negotiated(Some(PrintOffers(os)), positive);
            && (Wanted(os, "br", positive) || Wanted(os, "*", positive) ==> e == Br)
            && (!Wanted(os, "br", positive) && !Wanted(os, "*", positive) && Wanted(os, "gzip", positive) ==> e == Gzip)
            && (!Wanted(os, "br", positive) && !Wanted(os, "*", positive) && !Wanted(os, "gzip", positive) ==>
                  e == Identity)
  {
    PrintedSplits(os);
    PrintedOffers(os, "br", positive);
    PrintedOffers(os, "*", positive);
    PrintedOffers(os, "gzip", positive);
  }

  // ---- Pre-compression ----

  const WHITELIST: seq<string> := ["text/html", "text/css", "text/plain", "text/xml", "application/javascript",
                                   "application/json", "application/xml", "image/svg+xml"]

  function ShouldCompress(contentType: Option<string>, contentEncoding: Option<string>, size: nat, minBytes: nat): bool
  {
    var ce := if contentEncoding.Some? then ToLower(Trim(contentEncoding.value)) else "";
    && size >= minBytes
    && (ce == "" || ce == "identity")
    && contentType.Some?
    && ToLower(Trim(Split(contentType.value, ';')[0])) in WHITELIST
  }

  /** A media type with or without parameters, and a plain content coding, are read as they are spelled: the response is
      compressed if it is large enough, not yet encoded, and of one of the eight text types, in any case of letters. */
  lemma SpelledTypeCompresses(base: string, params: string, coding: Option<string>, size: nat, minBytes: nat)
    requires Plain(base) && (params == "" || params[0] == ';') && (coding.Some? ==> Plain(coding.value))
    ensures ShouldCompress(Some(base + params), coding, size, minBytes) <==>
            && size >= minBytes
            && (coding.None? || coding.value == "" || ToLower(coding.value) == "identity")
            && ToLower(base) in {"text/html", "text/css", "text/plain", "text/xml", "application/javascript",
                                 "application/json", "application/xml", "image/svg+xml"}
    ensures !ShouldCompress(None, coding, size, minBytes)
  {
    NothingToTrim(base);
    if coding.Some? { NothingToTrim(coding.value); }
    if params == "" {
      assert base + params == base;
      NothingToSplit(base, ';');
    } else {
      JoinSplits(base, ';', params[1..]);
      assert base + params == base + [';'] + params[1..];
      assert SplitOnce(base + params, ';') == Some((base, params[1..]));
    }
  }
}
