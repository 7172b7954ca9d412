/** The older Sonarr destination (src/sonarr.rs): its own codec, which fills
    three of the four seeding criteria with fixed values, its `save`, which
    adopts every non-error response, and its `update_indexers`, which fills in
    the fetched schema template itself rather than a copy of it. The HTTP
    exchange is a parameter, as in the newer destination. */
module Sonarr {
  import opened Seqs
  import opened Numerals
  import opened Znab
  import opened Source
  import D = DestinationSonarr

  // ----- Types -----

  datatype Protocol = Torrent | Usenet

  /** The typed protocol: every seeding criterion is a plain value here. */
  datatype ConfiguredProtocol =
    | Torrent(minimumSeeders: nat, seedRatio: D.F32, seedTime: nat, seasonPackSeedTime: nat)
    | Usenet

  datatype Implementation = Torznab | Newznab | TorrentRssIndexer | Other

  datatype ConfigContract = TorznabSettings | NewznabSettings | TorrentRssIndexerSettings | Other

  datatype SonarrIndexer = SonarrIndexer(
    id: Option<nat>,
    name: string,
    apiKey: string,
    categories: seq<nat>,
    animeCategories: seq<nat>,
    url: Url,
    implementation: Implementation,
    configContract: ConfigContract,
    protocol: ConfiguredProtocol)

  datatype Field =
    | BaseUrl(text: string)
    | ApiPath(path: string)
    | ApiKey(key: string)
    | Categories(categoryIds: seq<nat>)
    | AnimeCategories(animeIds: seq<nat>)
    | MinimumSeeders(seeders: nat)
    | AdditionalParameters(parameters: string)
    | SeedRatio(ratio: D.F32)
    | SeedTime(seedMinutes: nat)
    | SeasonPackSeedTime(seasonPackMinutes: nat)
    | Other

  datatype SonarrIndexerSchema = SonarrIndexerSchema(
    id: Option<nat>,
    configContract: ConfigContract,
    enableAutomaticSearch: bool,
    enableInteractiveSearch: bool,
    enableRss: bool,
    implementation: Implementation,
    protocol: Protocol,
    name: string,
    supportsRss: bool,
    supportsSearch: bool,
    fields: seq<Field>)

  /** The seeding criteria the decoder writes into every torrent record,
      whatever the fields say. */
  const FixedMinimumSeeders: nat := 1
  const FixedSeedTime: nat := 300
  const FixedSeasonPackSeedTime: nat := 3000

  // ----- Decoding -----

  function BaseUrlOf(f: Field): Option<string> { if f.BaseUrl? then Some(f.text) else None }
  function ApiKeyOf(f: Field): Option<string> { if f.ApiKey? then Some(f.key) else None }
  function CategoriesOf(f: Field): Option<seq<nat>> { if f.Categories? then Some(f.categoryIds) else None }
  function AnimeCategoriesOf(f: Field): Option<seq<nat>> { if f.AnimeCategories? then Some(f.animeIds) else None }
  function SeedRatioOf(f: Field): Option<D.F32> { if f.SeedRatio? then Some(f.ratio) else None }

  /** `From<SonarrIndexerSchema> for SonarrIndexer`; `None` is the panic of a
      torrent record without a seed ratio field. */
  function Decode(w: SonarrIndexerSchema, parse: string -> Option<Url>): Option<SonarrIndexer> {
    var protocol := match w.protocol
      case Usenet => Some(ConfiguredProtocol.Usenet)
      case Torrent =>
        match FindMap(SeedRatioOf, w.fields)
        case Some(ratio) => Some(ConfiguredProtocol.Torrent(FixedMinimumSeeders, ratio, FixedSeedTime, FixedSeasonPackSeedTime))
        case None => None;
    if protocol.None? then None
    else Some(SonarrIndexer(
      w.id,
      w.name,
      FindMap(ApiKeyOf, w.fields).GetOr(""),
      FindMap(CategoriesOf, w.fields).GetOr([]),
      FindMap(AnimeCategoriesOf, w.fields).GetOr([]),
      D.DecodeUrl(FindMap(BaseUrlOf, w.fields).GetOr(""), parse),
      w.implementation,
      w.configContract,
      protocol.value))
  }

  /** A torrent record decodes exactly when it has a seed ratio field; the
      first one is taken and the other three criteria are the fixed values,
      whatever fields carry them. */
  lemma DecodeTorrentSeeds(w: SonarrIndexerSchema, parse: string -> Option<Url>)
    requires w.protocol == Protocol.Torrent
    ensures Decode(w, parse).Some? <==> exists i :: 0 <= i < |w.fields| && w.fields[i].SeedRatio?
    ensures forall i :: 0 <= i < |w.fields| && w.fields[i].SeedRatio? && (forall j :: 0 <= j < i ==> !w.fields[j].SeedRatio?) ==>
      Decode(w, parse).Some? &&
      Decode(w, parse).value.protocol == ConfiguredProtocol.Torrent(1, w.fields[i].ratio, 300, 3000)
  {
    var fs := w.fields;
    FindMapNone(SeedRatioOf, fs);
    assert (exists i :: 0 <= i < |fs| && fs[i].SeedRatio?) <==> !(forall i :: 0 <= i < |fs| ==> SeedRatioOf(fs[i]).None?);
    forall i | 0 <= i < |fs| && fs[i].SeedRatio? && (forall j :: 0 <= j < i ==> !fs[j].SeedRatio?)
      ensures Decode(w, parse).Some? && Decode(w, parse).value.protocol == ConfiguredProtocol.Torrent(1, fs[i].ratio, 300, 3000)
    {
      FindMapAt(SeedRatioOf, fs, i);
    }
  }

  /** Decoding takes the first field of each tag it reads. */
  lemma DecodeTakesFirstField(w: SonarrIndexerSchema, parse: string -> Option<Url>, i: nat)
    requires Decode(w, parse).Some?
    requires i < |w.fields|
    ensures w.fields[i].ApiKey? && (forall j :: 0 <= j < i ==> !w.fields[j].ApiKey?) ==>
      Decode(w, parse).value.apiKey == w.fields[i].key
    ensures w.fields[i].Categories? && (forall j :: 0 <= j < i ==> !w.fields[j].Categories?) ==>
      Decode(w, parse).value.categories == w.fields[i].categoryIds
    ensures w.fields[i].AnimeCategories? && (forall j :: 0 <= j < i ==> !w.fields[j].AnimeCategories?) ==>
      Decode(w, parse).value.animeCategories == w.fields[i].animeIds
    ensures w.fields[i].BaseUrl? && (forall j :: 0 <= j < i ==> !w.fields[j].BaseUrl?) ==>
      Decode(w, parse).value.url == D.DecodeUrl(w.fields[i].text, parse)
  {
    if w.fields[i].ApiKey? && (forall j :: 0 <= j < i ==> !w.fields[j].ApiKey?) {
      FindMapAt(ApiKeyOf, w.fields, i);
    }
    if w.fields[i].Categories? && (forall j :: 0 <= j < i ==> !w.fields[j].Categories?) {
      FindMapAt(CategoriesOf, w.fields, i);
    }
    if w.fields[i].AnimeCategories? && (forall j :: 0 <= j < i ==> !w.fields[j].AnimeCategories?) {
      FindMapAt(AnimeCategoriesOf, w.fields, i);
    }
    if w.fields[i].BaseUrl? && (forall j :: 0 <= j < i ==> !w.fields[j].BaseUrl?) {
      FindMapAt(BaseUrlOf, w.fields, i);
    }
  }

  /** A usenet record decodes whatever fields it carries, seed fields
      included. */
  lemma DecodeUsenet(w: SonarrIndexerSchema, parse: string -> Option<Url>)
    requires w.protocol == Protocol.Usenet
    ensures Decode(w, parse).Some? && Decode(w, parse).value.protocol == ConfiguredProtocol.Usenet
  {
  }

  /** Absent tags decode to the empty key, no categories and, since the url
      crate rejects the empty string, the default url. */
  lemma DecodeDefaults(w: SonarrIndexerSchema, parse: string -> Option<Url>)
    requires Decode(w, parse).Some?
    requires parse("").None?
    ensures (forall i :: 0 <= i < |w.fields| ==> !w.fields[i].ApiKey?) ==> Decode(w, parse).value.apiKey == ""
    ensures (forall i :: 0 <= i < |w.fields| ==> !w.fields[i].Categories?) ==> Decode(w, parse).value.categories == []
    ensures (forall i :: 0 <= i < |w.fields| ==> !w.fields[i].AnimeCategories?) ==> Decode(w, parse).value.animeCategories == []
    ensures (forall i :: 0 <= i < |w.fields| ==> !w.fields[i].BaseUrl?) ==> Decode(w, parse).value.url == D.DefaultUrl
  {
    FindMapNone(ApiKeyOf, w.fields);
    FindMapNone(CategoriesOf, w.fields);
    FindMapNone(AnimeCategoriesOf, w.fields);
    FindMapNone(BaseUrlOf, w.fields);
    assert (forall i :: 0 <= i < |w.fields| ==> !w.fields[i].ApiKey?) ==> forall i :: 0 <= i < |w.fields| ==> ApiKeyOf(w.fields[i]).None?;
    assert (forall i :: 0 <= i < |w.fields| ==> !w.fields[i].Categories?) ==> forall i :: 0 <= i < |w.fields| ==> CategoriesOf(w.fields[i]).None?;
    assert (forall i :: 0 <= i < |w.fields| ==> !w.fields[i].AnimeCategories?) ==> forall i :: 0 <= i < |w.fields| ==> AnimeCategoriesOf(w.fields[i]).None?;
    assert (forall i :: 0 <= i < |w.fields| ==> !w.fields[i].BaseUrl?) ==> forall i :: 0 <= i < |w.fields| ==> BaseUrlOf(w.fields[i]).None?;
  }

  /** A tag this decoder never reads; the three seed tags besides the ratio
      are among them. */
  predicate IsIgnoredTag(f: Field) {
    f.ApiPath? || f.AdditionalParameters? || f.MinimumSeeders? || f.SeedTime? || f.SeasonPackSeedTime? || f.Other?
  }

  /** A field with a tag the decoder does not read may be inserted anywhere
      without changing the decoded record. */
  lemma DecodeIgnoresUnknownTags(w: SonarrIndexerSchema, before: seq<Field>, f: Field, after: seq<Field>, parse: string -> Option<Url>)
    requires IsIgnoredTag(f)
    ensures Decode(w.(fields := before + [f] + after), parse) == Decode(w.(fields := before + after), parse)
  {
    FindMapSkip(BaseUrlOf, before, f, after);
    FindMapSkip(ApiKeyOf, before, f, after);
    FindMapSkip(CategoriesOf, before, f, after);
    FindMapSkip(AnimeCategoriesOf, before, f, after);
    FindMapSkip(SeedRatioOf, before, f, after);
  }

  // ----- Encoding -----

  function BaseFields(r: SonarrIndexer): seq<Field> {
    [BaseUrl(r.url.serialized), ApiPath("/api"), ApiKey(r.apiKey), Categories(r.categories),
     AnimeCategories(r.animeCategories), AdditionalParameters("")]
  }

  function SeedFields(minimumSeeders: nat, seedRatio: D.F32, seedTime: nat, seasonPackSeedTime: nat): seq<Field> {
    [MinimumSeeders(minimumSeeders), SeedRatio(seedRatio), SeedTime(seedTime), SeasonPackSeedTime(seasonPackSeedTime)]
  }

  /** `From<SonarrIndexer> for SonarrIndexerSchema`, as a value. */
  function Encode(r: SonarrIndexer): SonarrIndexerSchema {
    var extra := match r.protocol
      case Torrent(seeders, ratio, seedTime, seasonPack) => SeedFields(seeders, ratio, seedTime, seasonPack)
      case Usenet => [];
    SonarrIndexerSchema(
      r.id, r.configContract, true, true, true, r.implementation,
      if r.protocol.Torrent? then Protocol.Torrent else Protocol.Usenet,
      r.name, true, true, BaseFields(r) + extra)
  }

  /** `From<SonarrIndexer> for SonarrIndexerSchema` as the source writes it:
      the torrent arm appends the seed fields and reassigns the protocol. */
  method IntoSchema(r: SonarrIndexer) returns (w: SonarrIndexerSchema)
    ensures w == Encode(r)
    ensures |w.fields| == (if r.protocol.Torrent? then 10 else 6)
    ensures w.fields[..6] == BaseFields(r)
    ensures r.protocol.Torrent? ==>
      && w.protocol == Protocol.Torrent
      && w.fields[6..] == SeedFields(r.protocol.minimumSeeders, r.protocol.seedRatio, r.protocol.seedTime, r.protocol.seasonPackSeedTime)
    ensures r.protocol.Usenet? ==> w.protocol == Protocol.Usenet
    ensures w.enableAutomaticSearch && w.enableInteractiveSearch && w.enableRss && w.supportsRss && w.supportsSearch
    ensures w.id == r.id && w.name == r.name && w.implementation == r.implementation && w.configContract == r.configContract
  {
    var fields := BaseFields(r);
    var protocol := Protocol.Usenet;
    if r.protocol.Torrent? {
      protocol := Protocol.Torrent;
      fields := fields + SeedFields(r.protocol.minimumSeeders, r.protocol.seedRatio, r.protocol.seedTime, r.protocol.seasonPackSeedTime);
    }
    w := SonarrIndexerSchema(r.id, r.configContract, true, true, true, r.implementation, protocol, r.name, true, true, fields);
  }

  /** The seeding criteria a record comes back with after encoding and
      decoding: the ratio survives, the other three become the fixed
      values. */
  function Reseeded(p: ConfiguredProtocol): ConfiguredProtocol {
    match p
    case Torrent(_, ratio, _, _) => ConfiguredProtocol.Torrent(FixedMinimumSeeders, ratio, FixedSeedTime, FixedSeasonPackSeedTime)
    case Usenet => ConfiguredProtocol.Usenet
  }

  /** Encoding then decoding never panics and keeps everything but three of
      the seeding criteria; so the record comes back unchanged exactly when it
      is a usenet record or already has 1 seeder, 300 and 3000 minutes. */
  lemma RoundTripIff(r: SonarrIndexer, parse: string -> Option<Url>)
    requires parse(r.url.serialized) == Some(r.url)
    ensures Decode(Encode(r), parse) == Some(r.(protocol := Reseeded(r.protocol)))
    ensures Decode(Encode(r), parse) == Some(r) <==>
      r.protocol.Usenet? ||
      (r.protocol.minimumSeeders == 1 && r.protocol.seedTime == 300 && r.protocol.seasonPackSeedTime == 3000)
  {
    var w := Encode(r);
    EncodedBaseFields(r, w.fields[6..]);
    assert w.fields == BaseFields(r) + w.fields[6..];
    if r.protocol.Torrent? {
      EncodedRatio(r);
    }
  }

  /** The four base fields the decoder reads come first, whatever follows
      them. */
  lemma EncodedBaseFields(r: SonarrIndexer, extra: seq<Field>)
    ensures var fs := BaseFields(r) + extra;
      && FindMap(BaseUrlOf, fs) == Some(r.url.serialized)
      && FindMap(ApiKeyOf, fs) == Some(r.apiKey)
      && FindMap(CategoriesOf, fs) == Some(r.categories)
      && FindMap(AnimeCategoriesOf, fs) == Some(r.animeCategories)
  {
    var fs := BaseFields(r) + extra;
    FindMapAt(BaseUrlOf, fs, 0);
    FindMapAt(ApiKeyOf, fs, 2);
    FindMapAt(CategoriesOf, fs, 3);
    FindMapAt(AnimeCategoriesOf, fs, 4);
  }

  /** The seed ratio of an encoded torrent record is the one it decodes to. */
  lemma EncodedRatio(r: SonarrIndexer)
    requires r.protocol.Torrent?
    ensures FindMap(SeedRatioOf, Encode(r).fields) == Some(r.protocol.seedRatio)
  {
    var fs := Encode(r).fields;
    assert fs == BaseFields(r) + SeedFields(r.protocol.minimumSeeders, r.protocol.seedRatio, r.protocol.seedTime, r.protocol.seasonPackSeedTime);
    FindMapAt(SeedRatioOf, fs, 7);
  }

  // ----- Saving -----

  datatype Request = Request(verb: D.HttpMethod, path: string, body: SonarrIndexerSchema)

  datatype Body = Json(schema: SonarrIndexerSchema) | Malformed

  datatype Response = Response(status: nat, body: Body) | TransportError

  /** The method and path `save` chooses, with the encoded record as body. */
  function SaveRequest(rec: SonarrIndexer): Request {
    match rec.id
    case Some(id) => Request(D.Put, D.IndexerPath + "/" + Show(id), Encode(rec))
    case None => Request(D.Post, D.IndexerPath, Encode(rec))
  }

  /** A record with an id is sent as a PUT to that id, one without as a POST
      to the collection; the body is the fully enabled encoded record. */
  lemma SaveRequestTargetsId(rec: SonarrIndexer)
    ensures SaveRequest(rec).verb == D.Put <==> rec.id.Some?
    ensures rec.id.None? ==> SaveRequest(rec).path == "/api/v3/indexer"
    ensures rec.id.Some? && rec.id.value < UsizeLimit ==>
      var path := SaveRequest(rec).path;
      |path| > 16 && path[..16] == "/api/v3/indexer/" && ParseUsize(path[16..]) == Some(rec.id.value)
    ensures SaveRequest(rec).body == Encode(rec) && SaveRequest(rec).body.enableRss
  {
    if rec.id.Some? && rec.id.value < UsizeLimit {
      assert SaveRequest(rec).path[16..] == Show(rec.id.value);
      ParseShow(rec.id.value);
    }
  }

  datatype SaveOutcome = Saved(record: SonarrIndexer, ok: bool) | SavePanic

  /** `save` after the request is sent: a client or server error is `Err`;
      any other response body is decoded and replaces the record, and one
      that does not deserialise is `Err`. */
  function Save(rec: SonarrIndexer, response: Response, parse: string -> Option<Url>): (out: SaveOutcome)
    ensures out.Saved? && out.record != rec ==> response.Response? && !(400 <= response.status < 600) && response.body.Json?
    ensures out.SavePanic? <==>
      response.Response? && !(400 <= response.status < 600) && response.body.Json? && Decode(response.body.schema, parse).None?
    ensures response.TransportError? || (response.Response? && 400 <= response.status < 600) ==> out == Saved(rec, false)
    ensures response.Response? && !(400 <= response.status < 600) && response.body.Json? && Decode(response.body.schema, parse).Some? ==>
      out == Saved(Decode(response.body.schema, parse).value, true)
    ensures response.Response? && response.body.Malformed? ==> out == Saved(rec, false)
  {
    match response
    case TransportError => Saved(rec, false)
    case Response(status, body) =>
      if D.IsClientError(status) || D.IsServerError(status) then Saved(rec, false)
      else match body
        case Malformed => Saved(rec, false)
        case Json(w) =>
          match Decode(w, parse)
          case Some(r) => Saved(r, true)
          case None => SavePanic
  }

  /** A server that answers with the record it was sent leaves the record as
      it was, except that three of its seeding criteria are reset to the
      fixed values. */
  lemma SaveEchoResetsSeeds(rec: SonarrIndexer, status: nat, parse: string -> Option<Url>)
    requires !(400 <= status < 600)
    requires parse(rec.url.serialized) == Some(rec.url)
    ensures Save(rec, Response(status, Json(Encode(rec))), parse) == Saved(rec.(protocol := Reseeded(rec.protocol)), true)
  {
    RoundTripIff(rec, parse);
  }

  // ----- The reconciliation loop -----

  function Kind(feed: ActiveFeed): Implementation {
    match feed
    case NewznabFeed(_) => Implementation.Newznab
    case TorznabFeed(_) => Implementation.Torznab
    case RssFeed(_) => Implementation.TorrentRssIndexer
  }

  /** The record name this destination gives a discovered indexer. */
  function DisplayName(ix: Indexer): string {
    ix.name + " - " + ix.nameId
  }

  /** The existing record a discovered indexer updates: the first whose name
      contains the identity token, if its implementation is the feed's. */
  function Candidate(existing: seq<SonarrIndexer>, nameId: string, kind: Implementation): (r: Option<nat>)
    ensures r.Some? ==> r.value < |existing| && existing[r.value].implementation == kind
    ensures r.Some? ==> Contains(existing[r.value].name, nameId) && forall j :: 0 <= j < r.value ==> !Contains(existing[j].name, nameId)
    ensures forall i ::
      (0 <= i < |existing| && Contains(existing[i].name, nameId) &&
       forall j :: 0 <= j < i ==> !Contains(existing[j].name, nameId))
      ==> (r == Some(i) <==> existing[i].implementation == kind)
    ensures (forall i :: 0 <= i < |existing| ==> !Contains(existing[i].name, nameId)) ==> r.None?
  {
    match FindIndex((rec: SonarrIndexer) => Contains(rec.name, nameId), existing)
    case Some(i) => if existing[i].implementation == kind then Some(i) else None
    case None => None
  }

  /** The position of the template `schemas.iter_mut().find(..)` hands out
      for the implementation; `None` is its panic. */
  function FindTemplate(schemas: seq<SonarrIndexer>, kind: Implementation): (r: Option<nat>)
    ensures r.Some? ==> r.value < |schemas| && schemas[r.value].implementation == kind
    ensures r.Some? ==> forall j :: 0 <= j < r.value ==> schemas[j].implementation != kind
    ensures r.None? <==> forall j :: 0 <= j < |schemas| ==> schemas[j].implementation != kind
  {
    FindIndex((s: SonarrIndexer) => s.implementation == kind, schemas)
  }

  /** The record after the field assignments of the feed's arm and the
      renaming. */
  function Populate(rec: SonarrIndexer, feed: ActiveFeed, ix: Indexer): (r: SonarrIndexer)
    ensures r.id == rec.id && r.implementation == rec.implementation && r.protocol == rec.protocol
    ensures r.configContract == rec.configContract && r.name == DisplayName(ix)
    ensures feed.RssFeed? ==> r == rec.(url := feed.url, name := DisplayName(ix))
    ensures !feed.RssFeed? ==>
      && r.apiKey == feed.znab.apiKey.GetOr("") && r.url == feed.znab.url
      && r.categories == Ids(Series(feed.znab.capabilities))
      && r.animeCategories == Ids(Anime(feed.znab.capabilities))
  {
    match feed
    case NewznabFeed(f) => PopulateZnab(rec, f).(name := DisplayName(ix))
    case TorznabFeed(f) => PopulateZnab(rec, f).(name := DisplayName(ix))
    case RssFeed(u) => rec.(url := u).(name := DisplayName(ix))
  }

  function PopulateZnab(rec: SonarrIndexer, f: ZnabFeed): SonarrIndexer {
    rec.(apiKey := f.apiKey.GetOr(""), url := f.url,
         categories := Ids(Series(f.capabilities)), animeCategories := Ids(Anime(f.capabilities)))
  }

  /** A panic that ends the run: no template for a needed implementation, or
      a response body that decodes to a torrent record without a ratio. */
  datatype Panic = MissingSchema(kind: Implementation) | UndecodableResponse

  datatype Outcome = Completed | Aborted(panic: Panic)

  /** The state of a run: the fetched templates, which this destination
      modifies, the existing records, the requests sent and whether the run
      was cut short. */
  datatype Run = Run(schemas: seq<SonarrIndexer>, existing: seq<SonarrIndexer>, requests: seq<Request>, outcome: Outcome)

  /** Saving a record held in a list at position `i`: the populated record is
      written there, then replaced by what `save` leaves in `self`; nothing
      else in the list changes. */
  function SaveInPlace(records: seq<SonarrIndexer>, i: nat, rec: SonarrIndexer, response: Response,
                       parse: string -> Option<Url>): (r: Option<seq<SonarrIndexer>>)
    requires i < |records|
    ensures r.Some? ==> |r.value| == |records| && forall j :: 0 <= j < |records| && j != i ==> r.value[j] == records[j]
    ensures r.None? <==> Save(rec, response, parse).SavePanic?
    ensures r.Some? ==> r.value[i] == Save(rec, response, parse).record
  {
    match Save(rec, response, parse)
    case Saved(saved, _) => Some(records[i := saved])
    case SavePanic => None
  }

  /** The body of the loop of `update_indexers` for the k-th discovered
      indexer. */
  function Step(st: Run, ix: Indexer, k: nat, server: (nat, Request) -> Response, parse: string -> Option<Url>): Run {
    match SelectFeed(ix.urls)
    case None => st
    case Some(feed) =>
      var kind := Kind(feed);
      match Candidate(st.existing, ix.nameId, kind)
      case Some(i) =>
        var rec := Populate(st.existing[i], feed, ix);
        var req := SaveRequest(rec);
        (match SaveInPlace(st.existing, i, rec, server(k, req), parse)
         case Some(existing) => st.(existing := existing, requests := st.requests + [req])
         case None => st.(existing := st.existing[i := rec], requests := st.requests + [req], outcome := Aborted(UndecodableResponse)))
      case None =>
        match FindTemplate(st.schemas, kind)
        case None => st.(outcome := Aborted(MissingSchema(kind)))
        case Some(j) =>
          var rec := Populate(st.schemas[j], feed, ix);
          var req := SaveRequest(rec);
          match SaveInPlace(st.schemas, j, rec, server(k, req), parse)
          case Some(schemas) => st.(schemas := schemas, requests := st.requests + [req])
          case None => st.(schemas := st.schemas[j := rec], requests := st.requests + [req], outcome := Aborted(UndecodableResponse))
  }

  function RunFrom(st: Run, indexers: seq<Indexer>, k: nat, server: (nat, Request) -> Response,
                   parse: string -> Option<Url>): Run
    requires k <= |indexers|
    decreases |indexers| - k
  {
    if k == |indexers| || st.outcome.Aborted? then st
    else RunFrom(Step(st, indexers[k], k, server, parse), indexers, k + 1, server, parse)
  }

  /** `update_indexers` on the fetched template and record lists, which this
      destination does not filter. */
  function Reconcile(indexers: seq<Indexer>, schemas: seq<SonarrIndexer>, existing: seq<SonarrIndexer>,
                     server: (nat, Request) -> Response, parse: string -> Option<Url>): Run
  {
    RunFrom(Run(schemas, existing, [], Completed), indexers, 0, server, parse)
  }

  /** `update_indexers`: a record to update, or else the template itself, is
      filled in where it stands in its list, renamed and saved. */
  method UpdateIndexers(indexers: seq<Indexer>, fetchedSchemas: seq<SonarrIndexer>, fetchedExisting: seq<SonarrIndexer>,
                        server: (nat, Request) -> Response, parse: string -> Option<Url>)
    returns (schemas: seq<SonarrIndexer>, existing: seq<SonarrIndexer>, requests: seq<Request>, outcome: Outcome)
    ensures Run(schemas, existing, requests, outcome) == Reconcile(indexers, fetchedSchemas, fetchedExisting, server, parse)
  {
    schemas := fetchedSchemas;
    existing := fetchedExisting;
    requests := [];
    outcome := Completed;
    for k := 0 to |indexers|
      invariant outcome == Completed
      invariant RunFrom(Run(schemas, existing, requests, outcome), indexers, k, server, parse)
        == Reconcile(indexers, fetchedSchemas, fetchedExisting, server, parse)
    {
      schemas, existing, requests, outcome := ProcessIndexer(schemas, existing, requests, indexers[k], k, server, parse);
      if outcome.Aborted? {
        return;
      }
    }
  }

  /** One pass of the loop of `update_indexers`. */
  method ProcessIndexer(schemas: seq<SonarrIndexer>, existing: seq<SonarrIndexer>, requests: seq<Request>,
                        indexer: Indexer, k: nat, server: (nat, Request) -> Response, parse: string -> Option<Url>)
    returns (schemas': seq<SonarrIndexer>, existing': seq<SonarrIndexer>, requests': seq<Request>, outcome: Outcome)
    ensures Run(schemas', existing', requests', outcome) == Step(Run(schemas, existing, requests, Completed), indexer, k, server, parse)
  {
    schemas', existing', requests', outcome := schemas, existing, requests, Completed;
    var feed := SelectFeed(indexer.urls);
    if feed.None? {
      return;
    }
    var kind := Kind(feed.value);
    var hit := Candidate(existing, indexer.nameId, kind);
    var inExisting := hit.Some?;
    var at: nat;
    if inExisting {
      at := hit.value;
    } else {
      var template := FindTemplate(schemas, kind);
      if template.None? {
        outcome := Aborted(MissingSchema(kind));
        return;
      }
      at := template.value;
    }
    var sonarrIndexer := if inExisting then existing[at] else schemas[at];
    match feed.value {
      case NewznabFeed(f) =>
        sonarrIndexer := sonarrIndexer.(apiKey := f.apiKey.GetOr(""));
        sonarrIndexer := sonarrIndexer.(url := f.url);
        sonarrIndexer := sonarrIndexer.(categories := Ids(Series(f.capabilities)));
        sonarrIndexer := sonarrIndexer.(animeCategories := Ids(Anime(f.capabilities)));
      case TorznabFeed(f) =>
        sonarrIndexer := sonarrIndexer.(apiKey := f.apiKey.GetOr(""));
        sonarrIndexer := sonarrIndexer.(url := f.url);
        sonarrIndexer := sonarrIndexer.(categories := Ids(Series(f.capabilities)));
        sonarrIndexer := sonarrIndexer.(animeCategories := Ids(Anime(f.capabilities)));
      case RssFeed(u) =>
        sonarrIndexer := sonarrIndexer.(url := u);
    }
    sonarrIndexer := sonarrIndexer.(name := DisplayName(indexer));
    assert sonarrIndexer == Populate(if inExisting then existing[at] else schemas[at], feed.value, indexer);
    var request := SaveRequest(sonarrIndexer);
    requests' := requests' + [request];
    var response := server(k, request);
    if inExisting {
      existing' := existing'[at := sonarrIndexer];
      var updated := SaveInPlace(existing, at, sonarrIndexer, response, parse);
      if updated.None? {
        outcome := Aborted(UndecodableResponse);
        return;
      }
      existing' := updated.value;
    } else {
      schemas' := schemas'[at := sonarrIndexer];
      var updated := SaveInPlace(schemas, at, sonarrIndexer, response, parse);
      if updated.None? {
        outcome := Aborted(UndecodableResponse);
        return;
      }
      schemas' := updated.value;
    }
  }

  // ----- What a run does -----

  /** A step keeps both lists' lengths; updating changes only the candidate
      record and no template, creating changes only the template it used and
      no record. */
  lemma StepFrame(st: Run, ix: Indexer, k: nat, server: (nat, Request) -> Response, parse: string -> Option<Url>)
    ensures var next := Step(st, ix, k, server, parse);
      |next.schemas| == |st.schemas| && |next.existing| == |st.existing| && |next.requests| <= |st.requests| + 1
    ensures SelectFeed(ix.urls).None? ==> Step(st, ix, k, server, parse) == st
    ensures SelectFeed(ix.urls).Some? ==>
      var kind := Kind(SelectFeed(ix.urls).value);
      var next := Step(st, ix, k, server, parse);
      match Candidate(st.existing, ix.nameId, kind)
      case Some(i) =>
        next.schemas == st.schemas && forall j :: 0 <= j < |st.existing| && j != i ==> next.existing[j] == st.existing[j]
      case None =>
        next.existing == st.existing &&
        forall j :: 0 <= j < |st.schemas| && Some(j) != FindTemplate(st.schemas, kind) ==> next.schemas[j] == st.schemas[j]
  {
    match SelectFeed(ix.urls) {
      case None =>
      case Some(feed) =>
        match Candidate(st.existing, ix.nameId, Kind(feed)) {
          case Some(i) => UpdateStepFrame(st, ix, k, server, parse, feed, i);
          case None => CreateStepFrame(st, ix, k, server, parse, feed);
        }
    }
  }

  /** The update half of `StepFrame`. */
  lemma UpdateStepFrame(st: Run, ix: Indexer, k: nat, server: (nat, Request) -> Response, parse: string -> Option<Url>,
                        feed: ActiveFeed, i: nat)
    requires SelectFeed(ix.urls) == Some(feed) && Candidate(st.existing, ix.nameId, Kind(feed)) == Some(i)
    ensures var next := Step(st, ix, k, server, parse);
      && |next.schemas| == |st.schemas| && |next.existing| == |st.existing| && |next.requests| <= |st.requests| + 1
      && next.schemas == st.schemas
      && forall j :: 0 <= j < |st.existing| && j != i ==> next.existing[j] == st.existing[j]
  {
    var rec := Populate(st.existing[i], feed, ix);
    var saved := SaveInPlace(st.existing, i, rec, server(k, SaveRequest(rec)), parse);
  }

  /** The create half of `StepFrame`. */
  lemma CreateStepFrame(st: Run, ix: Indexer, k: nat, server: (nat, Request) -> Response, parse: string -> Option<Url>,
                        feed: ActiveFeed)
    requires SelectFeed(ix.urls) == Some(feed) && Candidate(st.existing, ix.nameId, Kind(feed)).None?
    ensures var next := Step(st, ix, k, server, parse);
      && |next.schemas| == |st.schemas| && |next.existing| == |st.existing| && |next.requests| <= |st.requests| + 1
      && next.existing == st.existing
      && forall j :: 0 <= j < |st.schemas| && Some(j) != FindTemplate(st.schemas, Kind(feed)) ==> next.schemas[j] == st.schemas[j]
  {
    match FindTemplate(st.schemas, Kind(feed)) {
      case None =>
      case Some(j) =>
        var rec := Populate(st.schemas[j], feed, ix);
        var saved := SaveInPlace(st.schemas, j, rec, server(k, SaveRequest(rec)), parse);
    }
  }

  /** A run keeps the number of templates and of existing records. */
  lemma {:induction false} RunKeepsCounts(st: Run, indexers: seq<Indexer>, k: nat,
                                          server: (nat, Request) -> Response, parse: string -> Option<Url>)
    requires k <= |indexers|
    ensures |RunFrom(st, indexers, k, server, parse).schemas| == |st.schemas|
    ensures |RunFrom(st, indexers, k, server, parse).existing| == |st.existing|
    ensures |RunFrom(st, indexers, k, server, parse).requests| <= |st.requests| + (|indexers| - k)
    decreases |indexers| - k
  {
    if k < |indexers| && st.outcome.Completed? {
      StepFrame(st, indexers[k], k, server, parse);
      RunKeepsCounts(Step(st, indexers[k], k, server, parse), indexers, k + 1, server, parse);
    }
  }

  /** Two discovered indexers of the same kind that match no existing record
      should both be created, but once the first is saved the template holds
      the server's record and its id, so the second is sent as a PUT to that
      id and overwrites the record just created. */
  lemma TemplateSavedBecomesUpdate(st: Run, a: Indexer, b: Indexer, k: nat,
                                   server: (nat, Request) -> Response, parse: string -> Option<Url>,
                                   fa: ActiveFeed, fb: ActiveFeed, j: nat, saved: SonarrIndexer)
    requires st.outcome.Completed?
    requires SelectFeed(a.urls) == Some(fa) && SelectFeed(b.urls) == Some(fb) && Kind(fa) == Kind(fb)
    requires Candidate(st.existing, a.nameId, Kind(fa)).None? && Candidate(st.existing, b.nameId, Kind(fb)).None?
    requires FindTemplate(st.schemas, Kind(fa)) == Some(j)
    requires var rec := Populate(st.schemas[j], fa, a);
      Save(rec, server(k, SaveRequest(rec)), parse) == Saved(saved, true)
    requires saved.id.Some? && saved.implementation == Kind(fa)
    ensures var mid := Step(st, a, k, server, parse);
      var last := Step(mid, b, k + 1, server, parse);
      && |last.requests| == |st.requests| + 2
      && last.requests[|st.requests|].verb == (if st.schemas[j].id.Some? then D.Put else D.Post)
      && last.requests[|st.requests| + 1].verb == D.Put
      && last.requests[|st.requests| + 1].body.id == saved.id
  {
    var rec := Populate(st.schemas[j], fa, a);
    SaveRequestTargetsId(rec);
    CreateStepSends(st, a, k, server, parse, fa, j);
    var mid := Step(st, a, k, server, parse);
    CreateStepKeepsSaved(st, a, k, server, parse, fa, j, saved);
    FindTemplateAfterSave(st.schemas, j, saved, Kind(fb));
    SaveRequestTargetsId(Populate(saved, fb, b));
    CreateStepSends(mid, b, k + 1, server, parse, fb, j);
  }

  /** A saved record of the template's implementation stays the template
      handed out for that implementation. */
  lemma FindTemplateAfterSave(schemas: seq<SonarrIndexer>, j: nat, saved: SonarrIndexer, kind: Implementation)
    requires FindTemplate(schemas, kind) == Some(j) && saved.implementation == kind
    ensures FindTemplate(schemas[j := saved], kind) == Some(j)
  {
    var after := schemas[j := saved];
    assert after[j].implementation == kind;
    assert forall i :: 0 <= i < j ==> after[i] == schemas[i];
  }

  /** Creating from template `j` sends exactly the save request of the
      populated template. */
  lemma CreateStepSends(st: Run, ix: Indexer, k: nat, server: (nat, Request) -> Response, parse: string -> Option<Url>,
                        feed: ActiveFeed, j: nat)
    requires SelectFeed(ix.urls) == Some(feed) && Candidate(st.existing, ix.nameId, Kind(feed)).None?
    requires FindTemplate(st.schemas, Kind(feed)) == Some(j)
    ensures Step(st, ix, k, server, parse).requests == st.requests + [SaveRequest(Populate(st.schemas[j], feed, ix))]
  {
  }

  /** A successful create leaves the saved record in place of template `j`. */
  lemma CreateStepKeepsSaved(st: Run, ix: Indexer, k: nat, server: (nat, Request) -> Response, parse: string -> Option<Url>,
                             feed: ActiveFeed, j: nat, saved: SonarrIndexer)
    requires SelectFeed(ix.urls) == Some(feed) && Candidate(st.existing, ix.nameId, Kind(feed)).None?
    requires FindTemplate(st.schemas, Kind(feed)) == Some(j)
    requires var rec := Populate(st.schemas[j], feed, ix);
      Save(rec, server(k, SaveRequest(rec)), parse) == Saved(saved, true)
    ensures Step(st, ix, k, server, parse).schemas == st.schemas[j := saved]
    ensures Step(st, ix, k, server, parse).existing == st.existing
  {
    var rec := Populate(st.schemas[j], feed, ix);
    var schemas := SaveInPlace(st.schemas, j, rec, server(k, SaveRequest(rec)), parse).value;
    assert schemas == st.schemas[j := saved];
  }
}
