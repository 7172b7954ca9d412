/** The Sonarr destination (src/destination/sonarr.rs): the codec between
    Sonarr's tagged field list and the typed indexer record, and the
    reconciliation loop `update_indexers` that updates or creates one Sonarr
    indexer per discovered indexer. The HTTP exchange is a parameter:
    `server(k, request)` is the response to the request made for the k-th
    discovered indexer. */
module DestinationSonarr {
  import opened Seqs
  import opened Numerals
  import opened Znab
  import opened Source

  // ----- Types -----

  /** The wire protocol attribute. */
  datatype Protocol = Torrent | Usenet

  /** An `f32`, carried verbatim and compared by equality only. */
  datatype F32 = F32(bits: bv32)

  /** The typed protocol: torrents carry their seeding criteria. */
  datatype ConfiguredProtocol =
    | Torrent(minimumSeeders: nat, seedRatio: Option<F32>, seedTime: Option<nat>, seasonPackSeedTime: Option<nat>)
    | Usenet

  datatype Implementation = Torznab | Newznab | TorrentRssIndexer | Other

  datatype ConfigContract = TorznabSettings | NewznabSettings | TorrentRssIndexerSettings | Other

  /** The typed indexer record the reconciliation works on. */
  datatype SonarrIndexer = SonarrIndexer(
    id: Option<nat>,
    name: string,
    apiKey: string,
    categories: seq<nat>,
    animeCategories: seq<nat>,
    url: Url,
    implementation: Implementation,
    configContract: ConfigContract,
    protocol: ConfiguredProtocol)

  /** One tagged entry of the wire form's field list; `Other` is every tag
      the codec does not know. */
  datatype Field =
    | BaseUrl(text: string)
    | ApiPath(path: string)
    | ApiKey(key: string)
    | Categories(categoryIds: seq<nat>)
    | AnimeCategories(animeIds: seq<nat>)
    | MinimumSeeders(seeders: nat)
    | AdditionalParameters(parameters: string)
    | SeedRatio(ratio: Option<F32>)
    | SeedTime(seedMinutes: Option<nat>)
    | SeasonPackSeedTime(seasonPackMinutes: Option<nat>)
    | Other

  /** The wire form of an indexer record. */
  datatype SonarrIndexerSchema = SonarrIndexerSchema(
    id: Option<nat>,
    configContract: ConfigContract,
    enableAutomaticSearch: bool,
    enableInteractiveSearch: bool,
    enableRss: bool,
    implementation: Implementation,
    protocol: Protocol,
    name: string,
    supportsRss: bool,
    supportsSearch: bool,
    fields: seq<Field>)

  /** The seed field whose absence makes decoding a torrent record panic;
      the first one missing, in the order the decoder asks for them. */
  datatype DecodeError = MissingSeedRatio | MissingMinimumSeeders | MissingSeedTime | MissingSeasonPackSeedTime

  // ----- Decoding -----

  function BaseUrlOf(f: Field): Option<string> { if f.BaseUrl? then Some(f.text) else None }
  function ApiKeyOf(f: Field): Option<string> { if f.ApiKey? then Some(f.key) else None }
  function CategoriesOf(f: Field): Option<seq<nat>> { if f.Categories? then Some(f.categoryIds) else None }
  function AnimeCategoriesOf(f: Field): Option<seq<nat>> { if f.AnimeCategories? then Some(f.animeIds) else None }
  function MinimumSeedersOf(f: Field): Option<nat> { if f.MinimumSeeders? then Some(f.seeders) else None }
  function SeedRatioOf(f: Field): Option<Option<F32>> { if f.SeedRatio? then Some(f.ratio) else None }
  function SeedTimeOf(f: Field): Option<Option<nat>> { if f.SeedTime? then Some(f.seedMinutes) else None }
  function SeasonPackSeedTimeOf(f: Field): Option<Option<nat>> { if f.SeasonPackSeedTime? then Some(f.seasonPackMinutes) else None }

  /** A tag the decoder never reads. */
  predicate IsIgnoredTag(f: Field) {
    f.ApiPath? || f.AdditionalParameters? || f.Other?
  }

  /** `default_url()`, as the url crate serialises "http://example.com". */
  const DefaultUrl := Url("http://example.com/")

  /** `Url::parse(text).ok().unwrap_or_else(default_url)`; `parse` stands for
      the url crate's parser. */
  function DecodeUrl(text: string, parse: string -> Option<Url>): Url {
    parse(text).GetOr(DefaultUrl)
  }

  /** The protocol half of decoding: the wire protocol, and for torrents the
      first value of each seed field, asked for in the order the source
      builds the struct (ratio, seeders, seed time, season-pack seed time). */
  function DecodeProtocol(protocol: Protocol, fields: seq<Field>): Result<ConfiguredProtocol, DecodeError> {
    match protocol
    case Usenet => Success(ConfiguredProtocol.Usenet)
    case Torrent =>
      var ratio := FindMap(SeedRatioOf, fields);
      var seeders := FindMap(MinimumSeedersOf, fields);
      var seedTime := FindMap(SeedTimeOf, fields);
      var seasonPack := FindMap(SeasonPackSeedTimeOf, fields);
      if ratio.None? then Failure(MissingSeedRatio)
      else if seeders.None? then Failure(MissingMinimumSeeders)
      else if seedTime.None? then Failure(MissingSeedTime)
      else if seasonPack.None? then Failure(MissingSeasonPackSeedTime)
      else Success(ConfiguredProtocol.Torrent(seeders.value, ratio.value, seedTime.value, seasonPack.value))
  }

  /** `From<SonarrIndexerSchema> for SonarrIndexer`; a `Failure` is the
      panic of a missing torrent seed field. */
  function Decode(w: SonarrIndexerSchema, parse: string -> Option<Url>): Result<SonarrIndexer, DecodeError> {
    match DecodeProtocol(w.protocol, w.fields)
    case Failure(e) => Failure(e)
    case Success(protocol) =>
      Success(SonarrIndexer(
        w.id,
        w.name,
        FindMap(ApiKeyOf, w.fields).GetOr(""),
        FindMap(CategoriesOf, w.fields).GetOr([]),
        FindMap(AnimeCategoriesOf, w.fields).GetOr([]),
        DecodeUrl(FindMap(BaseUrlOf, w.fields).GetOr(""), parse),
        w.implementation,
        w.configContract,
        protocol))
  }

  /** Decoding takes the first field of each known tag, and the empty value
      for a tag that is absent. */
  lemma DecodeTakesFirstField(w: SonarrIndexerSchema, parse: string -> Option<Url>, i: nat)
    requires Decode(w, parse).Success?
    requires i < |w.fields|
    ensures w.fields[i].ApiKey? && (forall j :: 0 <= j < i ==> !w.fields[j].ApiKey?) ==>
      Decode(w, parse).value.apiKey == w.fields[i].key
    ensures w.fields[i].Categories? && (forall j :: 0 <= j < i ==> !w.fields[j].Categories?) ==>
      Decode(w, parse).value.categories == w.fields[i].categoryIds
    ensures w.fields[i].AnimeCategories? && (forall j :: 0 <= j < i ==> !w.fields[j].AnimeCategories?) ==>
      Decode(w, parse).value.animeCategories == w.fields[i].animeIds
    ensures w.fields[i].BaseUrl? && (forall j :: 0 <= j < i ==> !w.fields[j].BaseUrl?) ==>
      Decode(w, parse).value.url == DecodeUrl(w.fields[i].text, parse)
  {
    if w.fields[i].ApiKey? && (forall j :: 0 <= j < i ==> !w.fields[j].ApiKey?) {
      FindMapAt(ApiKeyOf, w.fields, i);
    }
    if w.fields[i].Categories? && (forall j :: 0 <= j < i ==> !w.fields[j].Categories?) {
      FindMapAt(CategoriesOf, w.fields, i);
    }
    if w.fields[i].AnimeCategories? && (forall j :: 0 <= j < i ==> !w.fields[j].AnimeCategories?) {
      FindMapAt(AnimeCategoriesOf, w.fields, i);
    }
    if w.fields[i].BaseUrl? && (forall j :: 0 <= j < i ==> !w.fields[j].BaseUrl?) {
      FindMapAt(BaseUrlOf, w.fields, i);
    }
  }

  /** Absent tags decode to the empty key, no categories and, since the url
      crate rejects the empty string, the default url. */
  lemma DecodeDefaults(w: SonarrIndexerSchema, parse: string -> Option<Url>)
    requires Decode(w, parse).Success?
    requires parse("").None?
    ensures (forall i :: 0 <= i < |w.fields| ==> !w.fields[i].ApiKey?) ==> Decode(w, parse).value.apiKey == ""
    ensures (forall i :: 0 <= i < |w.fields| ==> !w.fields[i].Categories?) ==> Decode(w, parse).value.categories == []
    ensures (forall i :: 0 <= i < |w.fields| ==> !w.fields[i].AnimeCategories?) ==> Decode(w, parse).value.animeCategories == []
    ensures (forall i :: 0 <= i < |w.fields| ==> !w.fields[i].BaseUrl?) ==> Decode(w, parse).value.url == DefaultUrl
  {
    FindMapNone(ApiKeyOf, w.fields);
    FindMapNone(CategoriesOf, w.fields);
    FindMapNone(AnimeCategoriesOf, w.fields);
    FindMapNone(BaseUrlOf, w.fields);
    assert (forall i :: 0 <= i < |w.fields| ==> !w.fields[i].ApiKey?) ==> forall i :: 0 <= i < |w.fields| ==> ApiKeyOf(w.fields[i]).None?;
    assert (forall i :: 0 <= i < |w.fields| ==> !w.fields[i].Categories?) ==> forall i :: 0 <= i < |w.fields| ==> CategoriesOf(w.fields[i]).None?;
    assert (forall i :: 0 <= i < |w.fields| ==> !w.fields[i].AnimeCategories?) ==> forall i :: 0 <= i < |w.fields| ==> AnimeCategoriesOf(w.fields[i]).None?;
    assert (forall i :: 0 <= i < |w.fields| ==> !w.fields[i].BaseUrl?) ==> forall i :: 0 <= i < |w.fields| ==> BaseUrlOf(w.fields[i]).None?;
  }

  /** A usenet record decodes whatever seed fields it carries. */
  lemma DecodeUsenet(w: SonarrIndexerSchema, parse: string -> Option<Url>)
    requires w.protocol == Protocol.Usenet
    ensures Decode(w, parse).Success? && Decode(w, parse).value.protocol == ConfiguredProtocol.Usenet
  {
  }

  /** The torrent half of `DecodeTorrent`: each seeding criterion decoded is
      the value of the first field with its tag. */
  lemma DecodeProtocolFirstValues(fs: seq<Field>)
    ensures forall i :: 0 <= i < |fs| && fs[i].SeedRatio? && (forall j :: 0 <= j < i ==> !fs[j].SeedRatio?) ==>
      DecodeProtocol(Protocol.Torrent, fs).Success? ==> DecodeProtocol(Protocol.Torrent, fs).value.seedRatio == fs[i].ratio
    ensures forall i :: 0 <= i < |fs| && fs[i].MinimumSeeders? && (forall j :: 0 <= j < i ==> !fs[j].MinimumSeeders?) ==>
      DecodeProtocol(Protocol.Torrent, fs).Success? ==> DecodeProtocol(Protocol.Torrent, fs).value.minimumSeeders == fs[i].seeders
    ensures forall i :: 0 <= i < |fs| && fs[i].SeedTime? && (forall j :: 0 <= j < i ==> !fs[j].SeedTime?) ==>
      DecodeProtocol(Protocol.Torrent, fs).Success? ==> DecodeProtocol(Protocol.Torrent, fs).value.seedTime == fs[i].seedMinutes
    ensures forall i :: 0 <= i < |fs| && fs[i].SeasonPackSeedTime? && (forall j :: 0 <= j < i ==> !fs[j].SeasonPackSeedTime?) ==>
      DecodeProtocol(Protocol.Torrent, fs).Success? ==> DecodeProtocol(Protocol.Torrent, fs).value.seasonPackSeedTime == fs[i].seasonPackMinutes
  {
    var d := DecodeProtocol(Protocol.Torrent, fs);
    assert d.Success? ==>
      d.value == ConfiguredProtocol.Torrent(FindMap(MinimumSeedersOf, fs).value, FindMap(SeedRatioOf, fs).value,
                                            FindMap(SeedTimeOf, fs).value, FindMap(SeasonPackSeedTimeOf, fs).value);
    forall i | 0 <= i < |fs| && fs[i].SeedRatio? && (forall j :: 0 <= j < i ==> !fs[j].SeedRatio?)
      ensures FindMap(SeedRatioOf, fs) == Some(fs[i].ratio)
    {
      FindMapAt(SeedRatioOf, fs, i);
    }
    forall i | 0 <= i < |fs| && fs[i].MinimumSeeders? && (forall j :: 0 <= j < i ==> !fs[j].MinimumSeeders?)
      ensures FindMap(MinimumSeedersOf, fs) == Some(fs[i].seeders)
    {
      FindMapAt(MinimumSeedersOf, fs, i);
    }
    forall i | 0 <= i < |fs| && fs[i].SeedTime? && (forall j :: 0 <= j < i ==> !fs[j].SeedTime?)
      ensures FindMap(SeedTimeOf, fs) == Some(fs[i].seedMinutes)
    {
      FindMapAt(SeedTimeOf, fs, i);
    }
    forall i | 0 <= i < |fs| && fs[i].SeasonPackSeedTime? && (forall j :: 0 <= j < i ==> !fs[j].SeasonPackSeedTime?)
      ensures FindMap(SeasonPackSeedTimeOf, fs) == Some(fs[i].seasonPackMinutes)
    {
      FindMapAt(SeasonPackSeedTimeOf, fs, i);
    }
  }

  /** A torrent record decodes exactly when all four seed fields are present,
      and then carries the first value of each. */
  lemma DecodeTorrent(w: SonarrIndexerSchema, parse: string -> Option<Url>)
    requires w.protocol == Protocol.Torrent
    ensures Decode(w, parse).Success? <==>
      (exists i :: 0 <= i < |w.fields| && w.fields[i].SeedRatio?) &&
      (exists i :: 0 <= i < |w.fields| && w.fields[i].MinimumSeeders?) &&
      (exists i :: 0 <= i < |w.fields| && w.fields[i].SeedTime?) &&
      (exists i :: 0 <= i < |w.fields| && w.fields[i].SeasonPackSeedTime?)
    ensures Decode(w, parse).Success? ==> Decode(w, parse).value.protocol.Torrent?
    ensures !(exists i :: 0 <= i < |w.fields| && w.fields[i].SeedTime?) ==> Decode(w, parse).Failure?
    ensures forall i :: 0 <= i < |w.fields| && w.fields[i].SeedRatio? && (forall j :: 0 <= j < i ==> !w.fields[j].SeedRatio?) ==>
      Decode(w, parse).Success? ==> Decode(w, parse).value.protocol.seedRatio == w.fields[i].ratio
    ensures forall i :: 0 <= i < |w.fields| && w.fields[i].MinimumSeeders? && (forall j :: 0 <= j < i ==> !w.fields[j].MinimumSeeders?) ==>
      Decode(w, parse).Success? ==> Decode(w, parse).value.protocol.minimumSeeders == w.fields[i].seeders
    ensures forall i :: 0 <= i < |w.fields| && w.fields[i].SeedTime? && (forall j :: 0 <= j < i ==> !w.fields[j].SeedTime?) ==>
      Decode(w, parse).Success? ==> Decode(w, parse).value.protocol.seedTime == w.fields[i].seedMinutes
    ensures forall i :: 0 <= i < |w.fields| && w.fields[i].SeasonPackSeedTime? && (forall j :: 0 <= j < i ==> !w.fields[j].SeasonPackSeedTime?) ==>
      Decode(w, parse).Success? ==> Decode(w, parse).value.protocol.seasonPackSeedTime == w.fields[i].seasonPackMinutes
  {
    DecodeProtocolFirstValues(w.fields);
    DecodeProtocolSucceeds(w.fields);
  }

  /** Decoding a torrent's protocol succeeds exactly when each of the four
      seed tags occurs. */
  lemma DecodeProtocolSucceeds(fs: seq<Field>)
    ensures DecodeProtocol(Protocol.Torrent, fs).Success? <==>
      (exists i :: 0 <= i < |fs| && fs[i].SeedRatio?) &&
      (exists i :: 0 <= i < |fs| && fs[i].MinimumSeeders?) &&
      (exists i :: 0 <= i < |fs| && fs[i].SeedTime?) &&
      (exists i :: 0 <= i < |fs| && fs[i].SeasonPackSeedTime?)
    ensures DecodeProtocol(Protocol.Torrent, fs).Success? ==> DecodeProtocol(Protocol.Torrent, fs).value.Torrent?
  {
    FindMapNone(SeedRatioOf, fs);
    FindMapNone(MinimumSeedersOf, fs);
    FindMapNone(SeedTimeOf, fs);
    FindMapNone(SeasonPackSeedTimeOf, fs);
    assert (exists i :: 0 <= i < |fs| && fs[i].SeedRatio?) <==> !(forall i :: 0 <= i < |fs| ==> SeedRatioOf(fs[i]).None?);
    assert (exists i :: 0 <= i < |fs| && fs[i].MinimumSeeders?) <==> !(forall i :: 0 <= i < |fs| ==> MinimumSeedersOf(fs[i]).None?);
    assert (exists i :: 0 <= i < |fs| && fs[i].SeedTime?) <==> !(forall i :: 0 <= i < |fs| ==> SeedTimeOf(fs[i]).None?);
    assert (exists i :: 0 <= i < |fs| && fs[i].SeasonPackSeedTime?) <==> !(forall i :: 0 <= i < |fs| ==> SeasonPackSeedTimeOf(fs[i]).None?);
  }

  /** A field with a tag the decoder does not read may be inserted anywhere
      without changing the decoded record. */
  lemma DecodeIgnoresUnknownTags(w: SonarrIndexerSchema, before: seq<Field>, f: Field, after: seq<Field>, parse: string -> Option<Url>)
    requires IsIgnoredTag(f)
    ensures Decode(w.(fields := before + [f] + after), parse) == Decode(w.(fields := before + after), parse)
  {
    var with := before + [f] + after;
    var without := before + after;
    FindMapSkip(BaseUrlOf, before, f, after);
    FindMapSkip(ApiKeyOf, before, f, after);
    FindMapSkip(CategoriesOf, before, f, after);
    FindMapSkip(AnimeCategoriesOf, before, f, after);
    FindMapSkip(MinimumSeedersOf, before, f, after);
    FindMapSkip(SeedRatioOf, before, f, after);
    FindMapSkip(SeedTimeOf, before, f, after);
    FindMapSkip(SeasonPackSeedTimeOf, before, f, after);
    assert DecodeProtocol(w.protocol, with) == DecodeProtocol(w.protocol, without);
  }

  // ----- Encoding -----

  /** The six fields every encoded record carries, in order. */
  function BaseFields(r: SonarrIndexer): seq<Field> {
    [BaseUrl(r.url.serialized), ApiPath("/api"), ApiKey(r.apiKey), Categories(r.categories),
     AnimeCategories(r.animeCategories), AdditionalParameters("")]
  }

  /** The four seed fields a torrent record adds, in order. */
  function SeedFields(minimumSeeders: nat, seedRatio: Option<F32>, seedTime: Option<nat>, seasonPackSeedTime: Option<nat>): seq<Field> {
    [MinimumSeeders(minimumSeeders), SeedRatio(seedRatio), SeedTime(seedTime), SeasonPackSeedTime(seasonPackSeedTime)]
  }

  /** `From<SonarrIndexer> for SonarrIndexerSchema`, as a value. */
  function Encode(r: SonarrIndexer): SonarrIndexerSchema {
    var extra := match r.protocol
      case Torrent(seeders, ratio, seedTime, seasonPack) => SeedFields(seeders, ratio, seedTime, seasonPack)
      case Usenet => [];
    SonarrIndexerSchema(
      r.id, r.configContract, true, true, true, r.implementation,
      if r.protocol.Torrent? then Protocol.Torrent else Protocol.Usenet,
      r.name, true, true, BaseFields(r) + extra)
  }

  /** `From<SonarrIndexer> for SonarrIndexerSchema` as the source writes it:
      a field list that torrent records append to, and a protocol that
      starts as usenet and is reassigned for torrents. */
  method IntoSchema(r: SonarrIndexer) returns (w: SonarrIndexerSchema)
    ensures w == Encode(r)
    ensures |w.fields| == (if r.protocol.Torrent? then 10 else 6)
    ensures w.fields[..6] == BaseFields(r)
    ensures r.protocol.Torrent? ==>
      && w.protocol == Protocol.Torrent
      && w.fields[6..] == SeedFields(r.protocol.minimumSeeders, r.protocol.seedRatio, r.protocol.seedTime, r.protocol.seasonPackSeedTime)
    ensures r.protocol.Usenet? ==> w.protocol == Protocol.Usenet
    ensures w.enableAutomaticSearch && w.enableInteractiveSearch && w.enableRss && w.supportsRss && w.supportsSearch
    ensures w.id == r.id && w.name == r.name && w.implementation == r.implementation && w.configContract == r.configContract
  {
    var fields := BaseFields(r);
    var protocol := Protocol.Usenet;
    if r.protocol.Torrent? {
      protocol := Protocol.Torrent;
      fields := fields + SeedFields(r.protocol.minimumSeeders, r.protocol.seedRatio, r.protocol.seedTime, r.protocol.seasonPackSeedTime);
    }
    w := SonarrIndexerSchema(r.id, r.configContract, true, true, true, r.implementation, protocol, r.name, true, true, fields);
  }

  /** Encoding then decoding gives back the record, every field included,
      provided the url crate parses a printed url back to itself. */
  lemma RoundTrip(r: SonarrIndexer, parse: string -> Option<Url>)
    requires parse(r.url.serialized) == Some(r.url)
    ensures Decode(Encode(r), parse) == Success(r)
  {
    var w := Encode(r);
    EncodedBaseFields(r, w.fields[6..]);
    assert w.fields == BaseFields(r) + w.fields[6..];
    EncodedProtocol(r);
  }

  /** The four base fields the decoder reads come first, whatever follows
      them. */
  lemma EncodedBaseFields(r: SonarrIndexer, extra: seq<Field>)
    ensures var fs := BaseFields(r) + extra;
      && FindMap(BaseUrlOf, fs) == Some(r.url.serialized)
      && FindMap(ApiKeyOf, fs) == Some(r.apiKey)
      && FindMap(CategoriesOf, fs) == Some(r.categories)
      && FindMap(AnimeCategoriesOf, fs) == Some(r.animeCategories)
  {
    var fs := BaseFields(r) + extra;
    FindMapAt(BaseUrlOf, fs, 0);
    FindMapAt(ApiKeyOf, fs, 2);
    FindMapAt(CategoriesOf, fs, 3);
    FindMapAt(AnimeCategoriesOf, fs, 4);
  }

  /** The encoded protocol and seed fields decode to the record's protocol. */
  lemma EncodedProtocol(r: SonarrIndexer)
    ensures DecodeProtocol(Encode(r).protocol, Encode(r).fields) == Success(r.protocol)
  {
    match r.protocol
    case Usenet =>
    case Torrent(seeders, ratio, seedTime, seasonPack) =>
      var fs := Encode(r).fields;
      assert fs == BaseFields(r) + SeedFields(seeders, ratio, seedTime, seasonPack);
      FindMapAt(MinimumSeedersOf, fs, 6);
      FindMapAt(SeedRatioOf, fs, 7);
      FindMapAt(SeedTimeOf, fs, 8);
      FindMapAt(SeasonPackSeedTimeOf, fs, 9);
  }

  // ----- Fetched lists and schema lookup -----

  predicate IsKnownContract(r: SonarrIndexer) {
    r.configContract != ConfigContract.Other
  }

  /** The filter `schemas()` and `existing_indexers()` apply to what they
      fetch: records with an unknown config contract are dropped, the rest
      keep their order. */
  function KnownRecords(records: seq<SonarrIndexer>): (r: seq<SonarrIndexer>)
    ensures IsSubsequence(r, records)
    ensures forall x :: x in r <==> x in records && x.configContract != ConfigContract.Other
  {
    Filter(IsKnownContract, records)
  }

  /** The filter keeps every occurrence of a known record, duplicates
      included: it distributes over concatenation, and a single record is
      kept exactly when its contract is known. */
  lemma KnownRecordsAppend(a: seq<SonarrIndexer>, b: seq<SonarrIndexer>, x: SonarrIndexer)
    ensures KnownRecords(a + b) == KnownRecords(a) + KnownRecords(b)
    ensures KnownRecords([x]) == if x.configContract != ConfigContract.Other then [x] else []
  {
    FilterAppend(IsKnownContract, a, b);
  }

  /** `IndexerSchemas::find`: the first schema of the given implementation;
      `None` is its panic. */
  function FindSchema(schemas: seq<SonarrIndexer>, kind: Implementation): (r: Option<SonarrIndexer>)
    ensures r.None? <==> forall i :: 0 <= i < |schemas| ==> schemas[i].implementation != kind
    ensures r.Some? ==>
      exists i :: 0 <= i < |schemas| && schemas[i] == r.value && r.value.implementation == kind &&
                  forall j :: 0 <= j < i ==> schemas[j].implementation != kind
  {
    match FindIndex((s: SonarrIndexer) => s.implementation == kind, schemas)
    case Some(i) => Some(schemas[i])
    case None => None
  }

  // ----- One reconciliation step -----

  /** The implementation a feed is synchronised as. */
  function Kind(feed: ActiveFeed): Implementation {
    match feed
    case NewznabFeed(_) => Implementation.Newznab
    case TorznabFeed(_) => Implementation.Torznab
    case RssFeed(_) => Implementation.TorrentRssIndexer
  }

  /** The record name this destination gives a discovered indexer. */
  function DisplayName(ix: Indexer): string {
    ix.name + " {" + ix.nameId + "}"
  }

  /** The existing record a discovered indexer updates: the first record
      whose name contains the identity token, provided its implementation is
      the one the feed calls for. */
  function Candidate(existing: seq<SonarrIndexer>, nameId: string, kind: Implementation): (r: Option<nat>)
    ensures r.Some? ==> r.value < |existing| && existing[r.value].implementation == kind
    ensures r.Some? ==> Contains(existing[r.value].name, nameId) && forall j :: 0 <= j < r.value ==> !Contains(existing[j].name, nameId)
    ensures forall i ::
      (0 <= i < |existing| && Contains(existing[i].name, nameId) &&
       forall j :: 0 <= j < i ==> !Contains(existing[j].name, nameId))
      ==> (r == Some(i) <==> existing[i].implementation == kind)
    ensures (forall i :: 0 <= i < |existing| ==> !Contains(existing[i].name, nameId)) ==> r.None?
  {
    match FindIndex((rec: SonarrIndexer) => Contains(rec.name, nameId), existing)
    case Some(i) => if existing[i].implementation == kind then Some(i) else None
    case None => None
  }

  /** The record after the field assignments of the feed's arm and the
      renaming. */
  function Populate(rec: SonarrIndexer, feed: ActiveFeed, ix: Indexer): SonarrIndexer {
    match feed
    case NewznabFeed(f) => PopulateZnab(rec, f).(name := DisplayName(ix))
    case TorznabFeed(f) => PopulateZnab(rec, f).(name := DisplayName(ix))
    case RssFeed(u) => rec.(url := u).(name := DisplayName(ix))
  }

  function PopulateZnab(rec: SonarrIndexer, f: ZnabFeed): SonarrIndexer {
    rec.(apiKey := f.apiKey.GetOr(""), url := f.url,
         categories := Ids(Series(f.capabilities)), animeCategories := Ids(Anime(f.capabilities)))
  }

  /** Populating keeps the record's identity and protocol, names it after the
      discovered indexer and, for a Newznab or Torznab feed, sets the key,
      the url and the series and anime category ids; an RSS feed sets only
      the url. */
  lemma PopulateSets(rec: SonarrIndexer, feed: ActiveFeed, ix: Indexer)
    ensures var r := Populate(rec, feed, ix);
      && r.id == rec.id && r.implementation == rec.implementation
      && r.configContract == rec.configContract && r.protocol == rec.protocol
      && r.name == DisplayName(ix)
      && (feed.RssFeed? ==> r == rec.(url := feed.url, name := DisplayName(ix)))
      && (!feed.RssFeed? ==>
          && r.apiKey == feed.znab.apiKey.GetOr("") && r.url == feed.znab.url
          && r.categories == Ids(Series(feed.znab.capabilities))
          && r.animeCategories == Ids(Anime(feed.znab.capabilities)))
  {
  }

  // ----- Saving -----

  datatype HttpMethod = Put | Post

  /** A request `save` sends: its method, its path and its JSON body, which
      is the encoded record. */
  datatype Request = Request(verb: HttpMethod, path: string, body: SonarrIndexerSchema)

  /** A response body: a record in wire form, or anything that does not
      deserialise into one. */
  datatype Body = Json(schema: SonarrIndexerSchema) | Malformed

  /** What the server answers, or a transport failure of `send`. */
  datatype Response = Response(status: nat, body: Body) | TransportError

  const IndexerPath := "/api/v3/indexer"

  /** The method and path `save` chooses, with the encoded record as body. */
  function SaveRequest(rec: SonarrIndexer): Request {
    match rec.id
    case Some(id) => Request(Put, IndexerPath + "/" + Show(id), Encode(rec))
    case None => Request(Post, IndexerPath, Encode(rec))
  }

  /** A record with an id is updated in place at its own id, one without is
      created; either way the body is the fully enabled encoded record. */
  lemma SaveRequestTargetsId(rec: SonarrIndexer)
    ensures SaveRequest(rec).verb == Put <==> rec.id.Some?
    ensures rec.id.None? ==> SaveRequest(rec).path == "/api/v3/indexer"
    ensures rec.id.Some? && rec.id.value < UsizeLimit ==>
      var path := SaveRequest(rec).path;
      |path| > 16 && path[..16] == "/api/v3/indexer/" && ParseUsize(path[16..]) == Some(rec.id.value)
    ensures SaveRequest(rec).body == Encode(rec) && SaveRequest(rec).body.enableRss
  {
    if rec.id.Some? && rec.id.value < UsizeLimit {
      var path := SaveRequest(rec).path;
      assert path[16..] == Show(rec.id.value);
      ParseShow(rec.id.value);
    }
  }

  /** The result of `save`: the record `self` holds afterwards and whether it
      returned `Ok`, or a panic while deserialising the response. */
  datatype SaveOutcome = Saved(record: SonarrIndexer, ok: bool) | SavePanic(error: DecodeError)

  predicate IsSuccess(status: nat) { 200 <= status < 300 }
  predicate IsClientError(status: nat) { 400 <= status < 500 }
  predicate IsServerError(status: nat) { 500 <= status < 600 }

  /** `save` after the request is sent: only a 201 or 202 response replaces
      the record, by the decoded response body; a success without a body to
      adopt is `Ok`, a client error is `Err`, and any other status is what
      `error_for_status` makes of it. */
  function Save(rec: SonarrIndexer, response: Response, parse: string -> Option<Url>): (out: SaveOutcome)
    ensures out.Saved? && out.record != rec ==> response.Response? && response.status in {201, 202}
    ensures response.Response? && response.status in {201, 202} && response.body.Json? ==>
      match Decode(response.body.schema, parse)
      case Success(r) => out == Saved(r, true)
      case Failure(e) => out == SavePanic(e)
    ensures out.SavePanic? ==> response.Response? && response.status in {201, 202}
    ensures response.Response? && (IsClientError(response.status) || IsServerError(response.status)) ==> out == Saved(rec, false)
    ensures response.Response? && response.status in {201, 202} && response.body.Malformed? ==> out == Saved(rec, false)
    ensures response.Response? && response.status !in {201, 202} && !IsClientError(response.status) && !IsServerError(response.status) ==>
      out == Saved(rec, true)
    ensures response.TransportError? ==> out == Saved(rec, false)
  {
    match response
    case TransportError => Saved(rec, false)
    case Response(status, body) =>
      if IsSuccess(status) then
        if status == 201 || status == 202 then
          match body
          case Malformed => Saved(rec, false)
          case Json(w) =>
            match Decode(w, parse)
            case Success(r) => Saved(r, true)
            case Failure(e) => SavePanic(e)
        else Saved(rec, true)
      else if IsClientError(status) then Saved(rec, false)
      else Saved(rec, !IsServerError(status))
  }

  // ----- The reconciliation loop -----

  /** A panic that ends the run: no schema for a needed implementation, or a
      201/202 response body that does not decode. */
  datatype Panic = MissingSchema(kind: Implementation) | UndecodableResponse(error: DecodeError)

  datatype Outcome = Completed | Aborted(panic: Panic)

  /** The observable state of a run: the working copy of the existing
      records, the requests sent so far, and whether the run was cut short. */
  datatype Run = Run(existing: seq<SonarrIndexer>, requests: seq<Request>, outcome: Outcome)

  /** Saving a populated existing record: it is written back in its place,
      then replaced by what `save` leaves in `self`; no other record
      changes. */
  function UpdateAt(st: Run, i: nat, rec: SonarrIndexer, req: Request, response: Response,
                    parse: string -> Option<Url>): (r: Run)
    requires i < |st.existing|
    ensures |r.existing| == |st.existing| && r.requests == st.requests + [req]
    ensures forall j :: 0 <= j < |st.existing| && j != i ==> r.existing[j] == st.existing[j]
    ensures r.outcome.Completed? <==> Save(rec, response, parse).Saved?
    ensures Save(rec, response, parse).SavePanic? ==> r.outcome == Aborted(UndecodableResponse(Save(rec, response, parse).error))
    ensures r.existing[i] == match Save(rec, response, parse)
      case Saved(saved, _) => saved
      case SavePanic(_) => rec
  {
    var existing := st.existing[i := rec];
    match Save(rec, response, parse)
    case Saved(saved, _) => Run(existing[i := saved], st.requests + [req], Completed)
    case SavePanic(e) => Run(existing, st.requests + [req], Aborted(UndecodableResponse(e)))
  }

  /** Saving a populated copy of a template: the existing records are left
      alone. */
  function CreateFrom(st: Run, rec: SonarrIndexer, req: Request, response: Response,
                      parse: string -> Option<Url>): (r: Run)
    ensures r.existing == st.existing && r.requests == st.requests + [req]
    ensures r.outcome.Completed? <==> Save(rec, response, parse).Saved?
    ensures Save(rec, response, parse).SavePanic? ==> r.outcome == Aborted(UndecodableResponse(Save(rec, response, parse).error))
  {
    match Save(rec, response, parse)
    case Saved(_, _) => Run(st.existing, st.requests + [req], Completed)
    case SavePanic(e) => Run(st.existing, st.requests + [req], Aborted(UndecodableResponse(e)))
  }

  /** The body of the loop of `update_indexers` for the k-th discovered
      indexer. */
  function Step(st: Run, schemas: seq<SonarrIndexer>, ix: Indexer, k: nat,
                server: (nat, Request) -> Response, parse: string -> Option<Url>): Run
  {
    match SelectFeed(ix.urls)
    case None => st
    case Some(feed) =>
      var kind := Kind(feed);
      match Candidate(st.existing, ix.nameId, kind)
      case Some(i) =>
        var rec := Populate(st.existing[i], feed, ix);
        UpdateAt(st, i, rec, SaveRequest(rec), server(k, SaveRequest(rec)), parse)
      case None =>
        match FindSchema(schemas, kind)
        case None => st.(outcome := Aborted(MissingSchema(kind)))
        case Some(template) =>
          var rec := Populate(template, feed, ix);
          CreateFrom(st, rec, SaveRequest(rec), server(k, SaveRequest(rec)), parse)
  }

  /** The loop from the k-th discovered indexer on; a panic ends it. */
  function RunFrom(st: Run, schemas: seq<SonarrIndexer>, indexers: seq<Indexer>, k: nat,
                   server: (nat, Request) -> Response, parse: string -> Option<Url>): Run
    requires k <= |indexers|
    decreases |indexers| - k
  {
    if k == |indexers| || st.outcome.Aborted? then st
    else RunFrom(Step(st, schemas, indexers[k], k, server, parse), schemas, indexers, k + 1, server, parse)
  }

  /** `update_indexers` on the fetched schema and indexer lists. */
  function Reconcile(indexers: seq<Indexer>, fetchedSchemas: seq<SonarrIndexer>, fetchedExisting: seq<SonarrIndexer>,
                     server: (nat, Request) -> Response, parse: string -> Option<Url>): Run
  {
    RunFrom(Run(KnownRecords(fetchedExisting), [], Completed), KnownRecords(fetchedSchemas), indexers, 0, server, parse)
  }

  /** `update_indexers`: for each discovered indexer in order, pick its feed,
      update the matching existing record in place or populate a copy of the
      schema template, rename it and save it. */
  method UpdateIndexers(indexers: seq<Indexer>, fetchedSchemas: seq<SonarrIndexer>, fetchedExisting: seq<SonarrIndexer>,
                        server: (nat, Request) -> Response, parse: string -> Option<Url>)
    returns (existing: seq<SonarrIndexer>, requests: seq<Request>, outcome: Outcome)
    ensures Run(existing, requests, outcome) == Reconcile(indexers, fetchedSchemas, fetchedExisting, server, parse)
  {
    var schemas := KnownRecords(fetchedSchemas);
    existing := KnownRecords(fetchedExisting);
    requests := [];
    outcome := Completed;
    for k := 0 to |indexers|
      invariant outcome == Completed
      invariant RunFrom(Run(existing, requests, outcome), schemas, indexers, k, server, parse)
        == Reconcile(indexers, fetchedSchemas, fetchedExisting, server, parse)
    {
      existing, requests, outcome := ProcessIndexer(schemas, existing, requests, indexers[k], k, server, parse);
      if outcome.Aborted? {
        return;
      }
    }
  }

  /** One pass of the loop of `update_indexers`: choose the feed, find the
      existing record or clone the template, fill it in, rename it and save
      it; an existing record is changed where it stands. */
  method ProcessIndexer(schemas: seq<SonarrIndexer>, existing: seq<SonarrIndexer>, requests: seq<Request>,
                        indexer: Indexer, k: nat, server: (nat, Request) -> Response, parse: string -> Option<Url>)
    returns (existing': seq<SonarrIndexer>, requests': seq<Request>, outcome: Outcome)
    ensures Run(existing', requests', outcome) == Step(Run(existing, requests, Completed), schemas, indexer, k, server, parse)
  {
    existing', requests', outcome := existing, requests, Completed;
    var feed := SelectFeed(indexer.urls);
    if feed.None? {
      return;
    }
    var kind := Kind(feed.value);
    var hit := Candidate(existing, indexer.nameId, kind);
    var sonarrIndexer: SonarrIndexer;
    if hit.Some? {
      sonarrIndexer := existing[hit.value];
    } else {
      var template := FindSchema(schemas, kind);
      if template.None? {
        outcome := Aborted(MissingSchema(kind));
        return;
      }
      sonarrIndexer := template.value;
    }
    match feed.value {
      case NewznabFeed(f) =>
        sonarrIndexer := sonarrIndexer.(apiKey := f.apiKey.GetOr(""));
        sonarrIndexer := sonarrIndexer.(url := f.url);
        sonarrIndexer := sonarrIndexer.(categories := Ids(Series(f.capabilities)));
        sonarrIndexer := sonarrIndexer.(animeCategories := Ids(Anime(f.capabilities)));
      case TorznabFeed(f) =>
        sonarrIndexer := sonarrIndexer.(apiKey := f.apiKey.GetOr(""));
        sonarrIndexer := sonarrIndexer.(url := f.url);
        sonarrIndexer := sonarrIndexer.(categories := Ids(Series(f.capabilities)));
        sonarrIndexer := sonarrIndexer.(animeCategories := Ids(Anime(f.capabilities)));
      case RssFeed(u) =>
        sonarrIndexer := sonarrIndexer.(url := u);
    }
    sonarrIndexer := sonarrIndexer.(name := DisplayName(indexer));
    assert sonarrIndexer == Populate(if hit.Some? then existing[hit.value] else FindSchema(schemas, kind).value, feed.value, indexer);
    if hit.Some? {
      existing' := existing'[hit.value := sonarrIndexer];
    }
    var request := SaveRequest(sonarrIndexer);
    requests' := requests' + [request];
    var saved := Save(sonarrIndexer, server(k, request), parse);
    if saved.SavePanic? {
      outcome := Aborted(UndecodableResponse(saved.error));
      return;
    }
    if hit.Some? {
      existing' := existing'[hit.value := saved.record];
    }
  }

  // ----- What a run does -----

  /** What the server receives is the record itself: decoding the body of the
      request `save` sends gives back the record it was sent for. */
  lemma RequestCarriesRecord(rec: SonarrIndexer, parse: string -> Option<Url>)
    requires parse(rec.url.serialized) == Some(rec.url)
    ensures Decode(SaveRequest(rec).body, parse) == Success(rec)
  {
    RoundTrip(rec, parse);
  }

  /** A request as `save` forms it: PUT to the record's own id exactly when
      the body has one, POST to the collection otherwise, and a body with
      automatic search, interactive search and RSS enabled. */
  predicate WellFormed(req: Request) {
    && (req.verb == Put <==> req.body.id.Some?)
    && (req.verb == Put ==> req.path == IndexerPath + "/" + Show(req.body.id.value))
    && (req.verb == Post ==> req.path == IndexerPath)
    && req.body.enableAutomaticSearch && req.body.enableInteractiveSearch && req.body.enableRss
  }

  /** Indexers that offer at least one feed: those a run saves. */
  function FedCount(indexers: seq<Indexer>): (n: nat)
    ensures n <= |indexers|
  {
    if indexers == [] then 0
    else (if SelectFeed(indexers[0].urls).Some? then 1 else 0) + FedCount(indexers[1..])
  }

  /** A step keeps the number of existing records, and changes none of them
      except the candidate it updates; creating from a template changes
      none. */
  lemma StepTouchesOnlyCandidate(st: Run, schemas: seq<SonarrIndexer>, ix: Indexer, k: nat,
                                 server: (nat, Request) -> Response, parse: string -> Option<Url>)
    ensures |Step(st, schemas, ix, k, server, parse).existing| == |st.existing|
    ensures SelectFeed(ix.urls).None? ==> Step(st, schemas, ix, k, server, parse) == st
    ensures SelectFeed(ix.urls).Some? ==>
      var hit := Candidate(st.existing, ix.nameId, Kind(SelectFeed(ix.urls).value));
      forall j :: 0 <= j < |st.existing| && hit != Some(j) ==>
        Step(st, schemas, ix, k, server, parse).existing[j] == st.existing[j]
  {
  }

  /** Updating changes the candidate record where it stands: it becomes the
      populated record, or the record a 201 or 202 body decodes to. */
  lemma UpdateStepWritesInPlace(st: Run, schemas: seq<SonarrIndexer>, ix: Indexer, k: nat,
                                server: (nat, Request) -> Response, parse: string -> Option<Url>,
                                feed: ActiveFeed, i: nat)
    requires SelectFeed(ix.urls) == Some(feed)
    requires Candidate(st.existing, ix.nameId, Kind(feed)) == Some(i)
    ensures var next := Step(st, schemas, ix, k, server, parse);
      var rec := Populate(st.existing[i], feed, ix);
      && |next.existing| == |st.existing|
      && next.existing[i] == match Save(rec, server(k, SaveRequest(rec)), parse)
        case Saved(saved, _) => saved
        case SavePanic(_) => rec
  {
    var rec := Populate(st.existing[i], feed, ix);
    var next := Step(st, schemas, ix, k, server, parse);
    assert next == UpdateAt(st, i, rec, SaveRequest(rec), server(k, SaveRequest(rec)), parse);
  }

  /** Updating an existing record sends a PUT to that record's id, with a body
      that keeps its id and names it after the discovered indexer. */
  lemma UpdateStepPutsExistingId(st: Run, schemas: seq<SonarrIndexer>, ix: Indexer, k: nat,
                                 server: (nat, Request) -> Response, parse: string -> Option<Url>,
                                 feed: ActiveFeed, i: nat)
    requires SelectFeed(ix.urls) == Some(feed)
    requires Candidate(st.existing, ix.nameId, Kind(feed)) == Some(i)
    requires st.existing[i].id.Some? && st.existing[i].id.value < UsizeLimit
    ensures var next := Step(st, schemas, ix, k, server, parse);
      && |next.requests| == |st.requests| + 1
      && next.requests[..|st.requests|] == st.requests
      && var req := next.requests[|st.requests|];
      && req.verb == Put
      && req.body.id == st.existing[i].id
      && |req.path| > |IndexerPath|
      && ParseUsize(req.path[|IndexerPath| + 1..]) == st.existing[i].id
      && req.body.name == DisplayName(ix)
      && req.body.implementation == Kind(feed)
  {
    var rec := Populate(st.existing[i], feed, ix);
    var req := SaveRequest(rec);
    PopulateSets(st.existing[i], feed, ix);
    SaveRequestTargetsId(rec);
    UpdateStepSends(st, schemas, ix, k, server, parse, feed, i);
    var next := Step(st, schemas, ix, k, server, parse);
    assert next.requests[|st.requests|] == req;
    assert req.path[|IndexerPath| + 1..] == req.path[16..];
  }

  /** Updating sends exactly the save request of the populated record. */
  lemma UpdateStepSends(st: Run, schemas: seq<SonarrIndexer>, ix: Indexer, k: nat,
                        server: (nat, Request) -> Response, parse: string -> Option<Url>,
                        feed: ActiveFeed, i: nat)
    requires SelectFeed(ix.urls) == Some(feed)
    requires Candidate(st.existing, ix.nameId, Kind(feed)) == Some(i)
    ensures Step(st, schemas, ix, k, server, parse).requests == st.requests + [SaveRequest(Populate(st.existing[i], feed, ix))]
  {
    var rec := Populate(st.existing[i], feed, ix);
    assert Step(st, schemas, ix, k, server, parse) == UpdateAt(st, i, rec, SaveRequest(rec), server(k, SaveRequest(rec)), parse);
  }

  /** A discovered indexer with no matching record is created from the
      template: a POST whose body is the populated template, and the existing
      records stay as they were. */
  lemma CreateStepPostsTemplate(st: Run, schemas: seq<SonarrIndexer>, ix: Indexer, k: nat,
                                server: (nat, Request) -> Response, parse: string -> Option<Url>,
                                feed: ActiveFeed)
    requires SelectFeed(ix.urls) == Some(feed)
    requires Candidate(st.existing, ix.nameId, Kind(feed)).None?
    requires FindSchema(schemas, Kind(feed)).Some? && FindSchema(schemas, Kind(feed)).value.id.None?
    requires parse(Populate(FindSchema(schemas, Kind(feed)).value, feed, ix).url.serialized)
             == Some(Populate(FindSchema(schemas, Kind(feed)).value, feed, ix).url)
    ensures var next := Step(st, schemas, ix, k, server, parse);
      var req := next.requests[|next.requests| - 1];
      && |next.requests| == |st.requests| + 1
      && next.existing == st.existing
      && req.verb == Post && req.path == "/api/v3/indexer"
      && Decode(req.body, parse) == Success(Populate(FindSchema(schemas, Kind(feed)).value, feed, ix))
  {
    var rec := Populate(FindSchema(schemas, Kind(feed)).value, feed, ix);
    PopulateSets(FindSchema(schemas, Kind(feed)).value, feed, ix);
    RequestCarriesRecord(rec, parse);
  }

  /** A run keeps the number of existing records. */
  lemma {:induction false} RunKeepsCount(st: Run, schemas: seq<SonarrIndexer>, indexers: seq<Indexer>, k: nat,
                                         server: (nat, Request) -> Response, parse: string -> Option<Url>)
    requires k <= |indexers|
    ensures |RunFrom(st, schemas, indexers, k, server, parse).existing| == |st.existing|
    decreases |indexers| - k
  {
    if k < |indexers| && st.outcome.Completed? {
      StepTouchesOnlyCandidate(st, schemas, indexers[k], k, server, parse);
      RunKeepsCount(Step(st, schemas, indexers[k], k, server, parse), schemas, indexers, k + 1, server, parse);
    }
  }

  /** A step sends at most one request, and a well-formed one. */
  lemma StepRequestWellFormed(st: Run, schemas: seq<SonarrIndexer>, ix: Indexer, k: nat,
                              server: (nat, Request) -> Response, parse: string -> Option<Url>)
    ensures var reqs := Step(st, schemas, ix, k, server, parse).requests;
      && |st.requests| <= |reqs| <= |st.requests| + 1
      && (forall j :: 0 <= j < |st.requests| ==> reqs[j] == st.requests[j])
      && (|reqs| > |st.requests| ==> WellFormed(reqs[|st.requests|]))
  {
    match SelectFeed(ix.urls) {
      case None =>
      case Some(feed) =>
        match Candidate(st.existing, ix.nameId, Kind(feed)) {
          case Some(i) =>
            SaveRequestTargetsId(Populate(st.existing[i], feed, ix));
          case None =>
            match FindSchema(schemas, Kind(feed)) {
              case None =>
              case Some(template) =>
                SaveRequestTargetsId(Populate(template, feed, ix));
            }
        }
    }
  }

  /** Every request a run sends is well formed, and the requests already sent
      stay as they were. */
  lemma {:induction false} RunRequestsWellFormed(st: Run, schemas: seq<SonarrIndexer>, indexers: seq<Indexer>, k: nat,
                                                 server: (nat, Request) -> Response, parse: string -> Option<Url>)
    requires k <= |indexers|
    ensures var reqs := RunFrom(st, schemas, indexers, k, server, parse).requests;
      && |st.requests| <= |reqs|
      && (forall j :: 0 <= j < |st.requests| ==> reqs[j] == st.requests[j])
      && (forall j :: |st.requests| <= j < |reqs| ==> WellFormed(reqs[j]))
    decreases |indexers| - k
  {
    if k < |indexers| && st.outcome.Completed? {
      var next := Step(st, schemas, indexers[k], k, server, parse);
      StepRequestWellFormed(st, schemas, indexers[k], k, server, parse);
      RunRequestsWellFormed(next, schemas, indexers, k + 1, server, parse);
      assert RunFrom(st, schemas, indexers, k, server, parse) == RunFrom(next, schemas, indexers, k + 1, server, parse);
      ExtendsWellFormed(st.requests, next.requests, RunFrom(next, schemas, indexers, k + 1, server, parse).requests);
    }
  }

  /** Request logs that each extend the one before with well-formed requests
      extend the first with well-formed requests. */
  lemma ExtendsWellFormed(first: seq<Request>, mid: seq<Request>, last: seq<Request>)
    requires |first| <= |mid| <= |first| + 1
    requires forall j :: 0 <= j < |first| ==> mid[j] == first[j]
    requires |mid| > |first| ==> WellFormed(mid[|first|])
    requires |mid| <= |last|
    requires forall j :: 0 <= j < |mid| ==> last[j] == mid[j]
    requires forall j :: |mid| <= j < |last| ==> WellFormed(last[j])
    ensures forall j :: 0 <= j < |first| ==> last[j] == first[j]
    ensures forall j :: |first| <= j < |last| ==> WellFormed(last[j])
  {
    forall j | |first| <= j < |last| ensures WellFormed(last[j]) {
      if j < |mid| {
        assert last[j] == mid[j];
      }
    }
  }

  /** A 201 or 202 response whose body decodes to a record that lacks a seed
      field: the one answer that makes `save` panic. */
  predicate PanicsOn(response: Response, parse: string -> Option<Url>) {
    response.Response? && response.status in {201, 202} && response.body.Json? &&
    Decode(response.body.schema, parse).Failure?
  }

  /** The template for every implementation is there. */
  predicate AllSchemas(schemas: seq<SonarrIndexer>) {
    && FindSchema(schemas, Implementation.Newznab).Some?
    && FindSchema(schemas, Implementation.Torznab).Some?
    && FindSchema(schemas, Implementation.TorrentRssIndexer).Some?
  }

  /** `save` panics only on a response `PanicsOn` describes. */
  lemma SavePanicsOnlyOn(rec: SonarrIndexer, response: Response, parse: string -> Option<Url>)
    requires !PanicsOn(response, parse)
    ensures Save(rec, response, parse).Saved?
  {
  }

  /** With every template present and a server that never answers with an
      undecodable record, a step completes and sends one request exactly
      when the indexer offers a feed. */
  lemma StepCompletes(st: Run, schemas: seq<SonarrIndexer>, ix: Indexer, k: nat,
                      server: (nat, Request) -> Response, parse: string -> Option<Url>)
    requires AllSchemas(schemas)
    requires forall n, req :: !PanicsOn(server(n, req), parse)
    ensures Step(st, schemas, ix, k, server, parse).outcome == st.outcome || Step(st, schemas, ix, k, server, parse).outcome.Completed?
    ensures |Step(st, schemas, ix, k, server, parse).requests| == |st.requests| + (if SelectFeed(ix.urls).Some? then 1 else 0)
    ensures SelectFeed(ix.urls).Some? ==> Step(st, schemas, ix, k, server, parse).outcome.Completed?
  {
    match SelectFeed(ix.urls) {
      case None =>
      case Some(feed) =>
        match Candidate(st.existing, ix.nameId, Kind(feed)) {
          case Some(i) =>
            var rec := Populate(st.existing[i], feed, ix);
            SavePanicsOnlyOn(rec, server(k, SaveRequest(rec)), parse);
          case None =>
            var rec := Populate(FindSchema(schemas, Kind(feed)).value, feed, ix);
            SavePanicsOnlyOn(rec, server(k, SaveRequest(rec)), parse);
        }
    }
  }

  /** With a template for every implementation and a server that never
      answers with an undecodable record, a run completes and sends exactly
      one request per discovered indexer that offers a feed, even when some
      saves fail. */
  lemma {:induction false} RunCompletes(st: Run, schemas: seq<SonarrIndexer>, indexers: seq<Indexer>, k: nat,
                                        server: (nat, Request) -> Response, parse: string -> Option<Url>)
    requires k <= |indexers| && st.outcome.Completed?
    requires AllSchemas(schemas)
    requires forall n, req :: !PanicsOn(server(n, req), parse)
    ensures RunFrom(st, schemas, indexers, k, server, parse).outcome.Completed?
    ensures |RunFrom(st, schemas, indexers, k, server, parse).requests| == |st.requests| + FedCount(indexers[k..])
    decreases |indexers| - k
  {
    if k < |indexers| {
      assert indexers[k..][1..] == indexers[k + 1..];
      StepCompletes(st, schemas, indexers[k], k, server, parse);
      RunCompletes(Step(st, schemas, indexers[k], k, server, parse), schemas, indexers, k + 1, server, parse);
    }
  }

  /** A run over indexers none of which offers a feed changes nothing. */
  lemma {:induction false} FeedlessRunIsNoop(st: Run, schemas: seq<SonarrIndexer>, indexers: seq<Indexer>, k: nat,
                                             server: (nat, Request) -> Response, parse: string -> Option<Url>)
    requires k <= |indexers|
    requires forall j :: k <= j < |indexers| ==> SelectFeed(indexers[j].urls).None?
    ensures RunFrom(st, schemas, indexers, k, server, parse) == st
    decreases |indexers| - k
  {
    if k < |indexers| && st.outcome.Completed? {
      FeedlessRunIsNoop(st, schemas, indexers, k + 1, server, parse);
    }
  }

  /** The name a record is given carries the identity token, so a later run
      finds the record again. */
  lemma DisplayNameCarriesId(ix: Indexer)
    ensures Contains(DisplayName(ix), ix.nameId)
  {
    var name := DisplayName(ix);
    var at := |ix.name| + 2;
    assert name[at..at + |ix.nameId|] == ix.nameId;
    assert OccursAt(name, ix.nameId, at);
  }

  /** A record updated in a run keeps a name that contains its identity
      token: the same discovered indexer picks the same record next time. */
  lemma RenamedRecordIsFoundAgain(existing: seq<SonarrIndexer>, ix: Indexer, feed: ActiveFeed, i: nat)
    requires i < |existing|
    requires forall j :: 0 <= j < i ==> !Contains(existing[j].name, ix.nameId)
    requires existing[i].implementation == Kind(feed)
    ensures Candidate(existing[i := Populate(existing[i], feed, ix)], ix.nameId, Kind(feed)) == Some(i)
  {
    PopulateSets(existing[i], feed, ix);
    DisplayNameCarriesId(ix);
  }

  /** The identity token is matched as a substring: a record of another
      discovered indexer whose token merely contains this one is taken for
      it, here "jackett:1" and the record named "Tracker {jackett:12}". */
  lemma NameIdCollision(rec: SonarrIndexer)
    requires rec.name == "Tracker {jackett:12}" && rec.implementation == Implementation.Torznab
    ensures Candidate([rec], "jackett:1", Implementation.Torznab) == Some(0)
  {
    assert rec.name[9..18] == "jackett:1";
    assert OccursAt(rec.name, "jackett:1", 9);
  }

  /** Creating works from a copy of the template, so two discovered indexers
      of the same kind that match no existing record are both created with a
      POST, whatever the server answered the first short of a panic. */
  lemma RepeatedCreatePosts(st: Run, schemas: seq<SonarrIndexer>, a: Indexer, b: Indexer, k: nat,
                            server: (nat, Request) -> Response, parse: string -> Option<Url>,
                            fa: ActiveFeed, fb: ActiveFeed)
    requires SelectFeed(a.urls) == Some(fa) && SelectFeed(b.urls) == Some(fb) && Kind(fa) == Kind(fb)
    requires Candidate(st.existing, a.nameId, Kind(fa)).None? && Candidate(st.existing, b.nameId, Kind(fb)).None?
    requires FindSchema(schemas, Kind(fa)).Some? && FindSchema(schemas, Kind(fa)).value.id.None?
    requires Step(st, schemas, a, k, server, parse).outcome.Completed?
    ensures var mid := Step(st, schemas, a, k, server, parse);
      var last := Step(mid, schemas, b, k + 1, server, parse);
      && |last.requests| == |st.requests| + 2
      && last.requests[|st.requests|].verb == Post
      && last.requests[|st.requests| + 1].verb == Post
  {
    var template := FindSchema(schemas, Kind(fa)).value;
    var mid := Step(st, schemas, a, k, server, parse);
    assert mid.existing == st.existing;
    var ra := Populate(template, fa, a);
    var rb := Populate(template, fb, b);
    PopulateSets(template, fa, a);
    PopulateSets(template, fb, b);
    assert mid.requests == st.requests + [SaveRequest(ra)];
    var last := Step(mid, schemas, b, k + 1, server, parse);
    assert last.requests == mid.requests + [SaveRequest(rb)];
  }

  /** A discovered indexer offering only a Torznab feed with the categories
      "TV", "Anime" and "XXX", with no existing record, is created from the
      Torznab template with the id of "TV" as its only series category, the
      id of "Anime" as its only anime category, and nothing from "XXX". */
  lemma CreateTorznabScenario(st: Run, schemas: seq<SonarrIndexer>, ix: Indexer, k: nat,
                              server: (nat, Request) -> Response, parse: string -> Option<Url>,
                              url: Url, key: Option<string>, t: string, a: string, x: string)
    requires ix.urls == FeedUrls(None, Some(ZnabFeed(url, key, [Capability(t, "TV"), Capability(a, "Anime"), Capability(x, "XXX")])), None)
    requires Candidate(st.existing, ix.nameId, Implementation.Torznab).None?
    requires FindSchema(schemas, Implementation.Torznab).Some? && FindSchema(schemas, Implementation.Torznab).value.id.None?
    ensures var next := Step(st, schemas, ix, k, server, parse);
      var template := FindSchema(schemas, Implementation.Torznab).value;
      && next.existing == st.existing
      && |next.requests| == |st.requests| + 1
      && next.requests[|st.requests|] == Request(Post, "/api/v3/indexer", Encode(template.(
           apiKey := key.GetOr(""), url := url,
           categories := Ids([Capability(t, "TV")]), animeCategories := Ids([Capability(a, "Anime")]),
           name := DisplayName(ix))))
  {
    ClassifyTvAnimeXxx(t, a, x);
  }

  /** Only the first record whose name carries the token is considered: when
      its implementation is not the feed's, a later record that matches both
      the token and the implementation is passed over and a new record is
      created instead. */
  lemma FirstNameMatchDecides(r0: SonarrIndexer, r1: SonarrIndexer, nameId: string)
    requires Contains(r0.name, nameId) && Contains(r1.name, nameId)
    requires r0.implementation == Implementation.Newznab && r1.implementation == Implementation.Torznab
    ensures Candidate([r0, r1], nameId, Implementation.Torznab).None?
  {
    assert [r0, r1][0] == r0;
  }
}
