# indexer-sync core, in Dafny

indexer-sync keeps the indexers configured in Sonarr in step with the
trackers a Jackett instance exposes. This project models and proves the three
pieces that sit under its HTTP plumbing:

- **The capability classifier** (`src/znab.rs`). It sorts a tracker's
  `(id, name)` category list into series, movies and anime buckets. Matching
  is an ASCII case-insensitive substring test. Anime is excluded from series
  and movies, and adult content from every bucket. It also extracts the
  numeric category ids (module `Znab`, with `Numerals` for Rust's `usize`
  parsing and printing).
- **The newer Sonarr destination** (`src/destination/sonarr.rs`, module
  `DestinationSonarr`). It covers:
  - the codec between Sonarr's tagged field list and the typed indexer
    record, where a torrent record needs all four seed fields;
  - the `ConfigContract::Other` filters and the template lookup
    `IndexerSchemas::find`;
  - `save`, which PUTs or POSTs and adopts a 201/202 response body;
  - the `update_indexers` loop, which fills in either the matching existing
    record or a copy of the template.
- **The older Sonarr destination** (`src/sonarr.rs`, module `Sonarr`). Its
  decoder writes fixed values into three of the four seeding criteria. Its
  `save` adopts every non-error response. Its `update_indexers` fills in the
  fetched template itself, not a copy.

The discovered indexers come from a crate root that is not part of this
model. They are plain inputs in module `Source`: a display name, the identity
token `name_id()`, and optional Newznab, Torznab and RSS feeds.

Both `update_indexers` loops are `method`s with `for` loops. Each is proved
against a specification function `Reconcile`, built from `RunFrom` and
`Step`, over the state the loop mutates:
- the newer loop mutates the existing records;
- the older loop mutates both the existing records and the templates.

The loop carries the requests sent and whether a panic cut the run short.
The HTTP exchange is a parameter `server(k, request)`: the response to the
request made for the k-th discovered indexer. The url crate's parser is a
parameter `parse`. A url is known only by its serialisation. The codec round
trips assume `parse(u.serialized) == Some(u)`.

Where the code and the written design disagree, the model follows the code:
- **Missing template.** It aborts the run (`Panic.MissingSchema`); the code
  panics. It does not skip the indexer and carry on.
- **Candidate choice.** Only the first existing record whose name contains
  the identity token is considered. Its implementation is checked after the
  match, so a later record matching both token and implementation is passed
  over (`DestinationSonarr.FirstNameMatchDecides`).
- **Token matching.** The identity token is matched as a substring, so
  "jackett:1" selects a record named "... {jackett:12}"
  (`DestinationSonarr.NameIdCollision`).
- **Series and movies buckets.** These can overlap: "TV Movies" is in both
  (`Znab.SeriesAndMoviesOverlap`). Only anime is disjoint from the other two.
- **Round trip.** The newer codec's round trip keeps `id` as well.

## Model

| member | source | states |
|---|---|---|
| Znab.Series | src/znab.rs:56-66 | the series bucket is a subsequence of the input (order and elements kept); a capability is in it iff its lowered name contains "tv", "series" or "episodes", not "anime", and no adult term |
| Znab.Anime | src/znab.rs:68-74 | the anime bucket is a subsequence of the input; a capability is in it iff its lowered name contains "anime" and no adult term |
| Znab.Movies | src/znab.rs:76-86 | the movies bucket is a subsequence of the input; a capability is in it iff its lowered name contains "movie", "film" or "movs", not "anime", and no adult term |
| Znab.ToAsciiLower | src/znab.rs:43 | lowering keeps the length and lowers exactly the ASCII capitals |
| Znab.AnimeDisjoint | src/znab.rs:42-45 | nothing in the anime bucket is in the series or movies bucket |
| Znab.AdultInNoBucket | src/znab.rs:47-53 | a capability whose lowered name contains "xxx", "adult", "porn" or "hentai" is in no bucket |
| Znab.BucketsAppend | src/znab.rs:56-86 | each bucket of a concatenation is the concatenation of the buckets, so every occurrence is kept, duplicates included |
| Znab.BucketsSingle | src/znab.rs:56-86 | a single capability forms its bucket exactly when it passes that bucket's inclusion and exclusion tests; with `BucketsAppend` this fixes every bucket of every list |
| Znab.SeriesKeepsDuplicates | src/znab.rs:56-66 | a series capability listed twice is kept twice |
| Znab.ClassifyTvHd | src/znab.rs:148 | "TV/HD" is in the series bucket and in neither of the others |
| Znab.ClassifyAnime | src/znab.rs:171 | "Anime" is in the anime bucket and in neither of the others |
| Znab.ClassifyXxxAnime | src/znab.rs:183 | "XXX-Anime" is in no bucket |
| Znab.SeriesAndMoviesOverlap | src/znab.rs:56-86 | "TV Movies" lands in both the series and the movies bucket |
| Znab.ClassifyTvAnimeXxx | src/znab.rs:56-86 | for the list "TV", "Anime", "XXX" the series bucket is exactly "TV", the anime bucket exactly "Anime", the movies bucket empty |
| Znab.IdStrings | src/znab.rs:28-32 | the string ids have the input's length, element i being capability i's id |
| Znab.Ids | src/znab.rs:34-40 | the numeric ids are no more than the capabilities, each below 2^64 and the parse of some capability's id |
| Znab.IdsDropNonNumeric | src/znab.rs:37 | a capability whose id does not parse contributes nothing, wherever it stands |
| Znab.IdsAllNumeric | src/znab.rs:34-40 | when every id parses, the numeric ids are the string ids parsed, one for one and in order |
| Znab.IdsAppend | src/znab.rs:34-40 | the ids of a concatenation are the concatenation of the ids (order kept) |
| Znab.SeriesIdsOrigin | src/znab.rs:34-66 | every series category id is the parsed id of a capability passing the series tests |
| Znab.AnimeIdsOrigin | src/znab.rs:34-74 | every anime category id is the parsed id of a non-adult anime capability |
| Numerals.ParseUsize | src/znab.rs:37 | `parse::<usize>()` succeeds only on digits after an optional `+`; such a digit string parses to its decimal value exactly when that value is below 2^64 |
| Numerals.ParseUsizeExamples | src/znab.rs:37 | "007" parses to 7 and "+5" to 5; "-5", "+" and "" do not parse |
| Numerals.Show | src/destination/sonarr.rs:322 | the id printed into the path is a nonempty digit string without leading zero |
| Numerals.ParseShow | src/destination/sonarr.rs:322 | an id printed into the PUT path parses back to the same id |
| Source.SelectFeed | src/destination/sonarr.rs:437-495 | the arm taken is Newznab if present, else Torznab, else RSS; none only when all three are absent |
| DestinationSonarr.DecodeTakesFirstField | src/destination/sonarr.rs:98-141 | the key, categories, anime categories and url are taken from the first field with each tag |
| DestinationSonarr.DecodeDefaults | src/destination/sonarr.rs:107-187 | an absent tag decodes to "", no categories, or `http://example.com/` |
| DestinationSonarr.DecodeUsenet | src/destination/sonarr.rs:143-144 | a usenet record decodes, whatever seed fields it has |
| DestinationSonarr.DecodeTorrent | src/destination/sonarr.rs:145-178 | a torrent record decodes iff all four seed fields are present, and then to a torrent protocol carrying the value of the first field of each seed tag |
| DestinationSonarr.DecodeProtocolFirstValues | src/destination/sonarr.rs:145-177 | each decoded seeding criterion is the value of the first field with its tag |
| DestinationSonarr.DecodeIgnoresUnknownTags | src/destination/sonarr.rs:98-178 | inserting an `ApiPath`, `AdditionalParameters` or unknown field anywhere leaves the decoded record unchanged |
| DestinationSonarr.IntoSchema | src/destination/sonarr.rs:196-253 | the encoded field list is the six base fields in order, plus the four seed fields for torrents; the protocol follows; all five flags are true; id, name, implementation and contract are copied |
| DestinationSonarr.RoundTrip | src/destination/sonarr.rs:96-254 | decoding an encoded record gives back the record, every field included |
| DestinationSonarr.KnownRecords | src/destination/sonarr.rs:391-394 | the filtered list is a subsequence holding exactly the records whose contract is not `Other` |
| DestinationSonarr.KnownRecordsAppend | src/destination/sonarr.rs:391-394 | the filter distributes over concatenation and keeps a single record iff its contract is not `Other`, so every occurrence of a known record is kept |
| DestinationSonarr.FindSchema | src/destination/sonarr.rs:371-377 | the template is the first schema of the implementation; none exactly when no schema has it |
| DestinationSonarr.Candidate | src/destination/sonarr.rs:433-444 | a candidate, when there is one, is the first record whose name contains the token, and it has the feed's implementation; when the first name match exists it is the candidate iff its implementation is the feed's; no name match, no candidate |
| DestinationSonarr.PopulateSets | src/destination/sonarr.rs:452-497 | populating keeps id, implementation, contract and protocol; sets the name; Newznab/Torznab set key (or ""), url and the series and anime ids; RSS sets only the url |
| DestinationSonarr.SaveRequestTargetsId | src/destination/sonarr.rs:320-333 | PUT iff the record has an id, to a path whose tail parses back to that id; otherwise POST to `/api/v3/indexer`; the body is the encoded record |
| DestinationSonarr.Save | src/destination/sonarr.rs:345-365 | only a 201/202 body replaces the record: a decodable one gives `Ok` with the decoded record, one lacking seed fields panics with that decode error, one that does not deserialise leaves the record and gives `Err`; client and server errors and transport errors leave the record and give `Err`; any other status leaves the record and gives `Ok` |
| DestinationSonarr.UpdateAt | src/destination/sonarr.rs:445-505 | saving an existing record through `&mut` changes no other record, leaves it as the populated record or the record a 201/202 body decodes to, appends its request, and stops the run only when `save` panics, with that panic's decode error |
| DestinationSonarr.CreateFrom | src/destination/sonarr.rs:447-505 | saving a copy of the template appends its request, never adds the record to the existing list, and stops the run only when `save` panics, with that panic's decode error |
| DestinationSonarr.UpdateIndexers | src/destination/sonarr.rs:421-509 | the loop's final records, requests and outcome are those of `Reconcile` on the filtered lists |
| DestinationSonarr.ProcessIndexer | src/destination/sonarr.rs:428-505 | one pass of the loop computes exactly `Step` |
| DestinationSonarr.RequestCarriesRecord | src/destination/sonarr.rs:328-331 | the body sent decodes to exactly the populated record |
| DestinationSonarr.StepTouchesOnlyCandidate | src/destination/sonarr.rs:433-505 | a step keeps the record count, changes no record but the candidate, and is a no-op for an indexer with no feed |
| DestinationSonarr.UpdateStepWritesInPlace | src/destination/sonarr.rs:445-505 | an update changes the candidate where it stands: it becomes the populated record, or the record a 201/202 body decodes to |
| DestinationSonarr.UpdateStepPutsExistingId | src/destination/sonarr.rs:442-505 | updating sends one PUT to the existing record's id with a body renamed after the indexer |
| DestinationSonarr.CreateStepPostsTemplate | src/destination/sonarr.rs:446-505 | creating sends one POST whose body decodes to the populated template, and adds nothing to the existing records |
| DestinationSonarr.RunKeepsCount | src/destination/sonarr.rs:428-506 | a run keeps the number of existing records |
| DestinationSonarr.StepRequestWellFormed | src/destination/sonarr.rs:320-333 | a step sends at most one request, and it is well formed |
| DestinationSonarr.RunRequestsWellFormed | src/destination/sonarr.rs:428-506 | earlier requests are kept and every request sent is well formed: PUT to its own id or POST, with all flags on |
| DestinationSonarr.SavePanicsOnlyOn | src/destination/sonarr.rs:345-352 | `save` panics only on a 201/202 body lacking a seed field |
| DestinationSonarr.StepCompletes | src/destination/sonarr.rs:433-505 | with every template present and no panicking response, a step completes and sends one request iff the indexer has a feed |
| DestinationSonarr.RunCompletes | src/destination/sonarr.rs:428-506 | with every template present and no panicking response, a run completes with one request per indexer that has a feed, failed saves included |
| DestinationSonarr.FeedlessRunIsNoop | src/destination/sonarr.rs:492-494 | indexers without any feed change nothing |
| DestinationSonarr.DisplayNameCarriesId | src/destination/sonarr.rs:497 | the new name contains the identity token |
| DestinationSonarr.RenamedRecordIsFoundAgain | src/destination/sonarr.rs:433-497 | an updated record is the candidate for the same indexer afterwards |
| DestinationSonarr.NameIdCollision | src/destination/sonarr.rs:433-435 | the token "jackett:1" selects the record named "Tracker {jackett:12}" |
| DestinationSonarr.FirstNameMatchDecides | src/destination/sonarr.rs:433-444 | a later record matching both token and implementation is passed over when the first name match has another implementation |
| DestinationSonarr.RepeatedCreatePosts | src/destination/sonarr.rs:446-468 | two new indexers of one kind are both created with a POST |
| DestinationSonarr.CreateTorznabScenario | src/destination/sonarr.rs:457-474 | a Torznab feed with "TV", "Anime", "XXX" and no existing record is POSTed from the template with the ids of "TV" as series and of "Anime" as anime categories |
| Sonarr.DecodeTorrentSeeds | src/sonarr.rs:143-158 | a torrent record decodes iff it has a seed ratio field; the first ratio is kept and the other criteria are 1, 300 and 3000 |
| Sonarr.DecodeUsenet | src/sonarr.rs:143-144 | a usenet record decodes, whatever seed fields it has, to a usenet protocol |
| Sonarr.DecodeTakesFirstField | src/sonarr.rs:98-166 | the key, categories, anime categories and url are taken from the first field with each tag |
| Sonarr.DecodeDefaults | src/sonarr.rs:107-166 | an absent tag decodes to "", no categories, or `http://example.com/` |
| Sonarr.DecodeIgnoresUnknownTags | src/sonarr.rs:98-158 | inserting a field the decoder does not read (the three other seed fields included) leaves the decoded record unchanged |
| Sonarr.IntoSchema | src/sonarr.rs:174-233 | the six base fields in order, plus the four seed fields for torrents; the protocol follows; all five flags are true; id, name, implementation and contract are copied |
| Sonarr.RoundTripIff | src/sonarr.rs:96-233 | decoding an encoded record never fails and resets three seeding criteria, so it gives back the record iff it is usenet or has 1, 300, 3000 |
| Sonarr.SaveRequestTargetsId | src/sonarr.rs:291-298 | PUT iff the record has an id, to a path whose tail parses back to that id; otherwise POST |
| Sonarr.Save | src/sonarr.rs:300-313 | client and server errors leave the record and give `Err`; any other decodable JSON body replaces the record with the decoded one and gives `Ok`, a torrent body without a ratio panics, and a body that does not deserialise leaves the record and gives `Err` |
| Sonarr.SaveEchoResetsSeeds | src/sonarr.rs:309-311 | a server echoing the record back leaves it as it was except for the three reset seeding criteria |
| Sonarr.Candidate | src/sonarr.rs:340-350 | a candidate, when there is one, is the first record whose name contains the token, and it has the feed's implementation; the first name match is the candidate iff its implementation is the feed's; no name match, no candidate |
| Sonarr.FindTemplate | src/sonarr.rs:355-361 | the position of the first template of the implementation; none exactly when there is none |
| Sonarr.Populate | src/sonarr.rs:364-421 | keeps id, implementation, contract and protocol; names the record "name - token"; sets the key, url and ids, or only the url for RSS |
| Sonarr.SaveInPlace | src/sonarr.rs:300-311 | saving through the list changes only the saved position, which ends as what `save` leaves in `self` |
| Sonarr.ProcessIndexer | src/sonarr.rs:339-423 | one pass of the loop computes exactly `Step` |
| Sonarr.UpdateIndexers | src/sonarr.rs:318-427 | the loop's final templates, records, requests and outcome are those of `Reconcile` |
| Sonarr.StepFrame | src/sonarr.rs:339-423 | updating changes only the candidate record and no template; creating changes only the template it used and no record |
| Sonarr.RunKeepsCounts | src/sonarr.rs:338-424 | a run keeps the number of templates and of existing records, and sends at most one request per indexer |
| Sonarr.TemplateSavedBecomesUpdate | src/sonarr.rs:355-385 | after a saved create, a second new indexer of the same kind is sent as a PUT to the id the server gave the first |

## Findings

| source | as written | input that shows it | evidently intended | confidence | as-written member | corrected member |
|---|---|---|---|---|---|---|
| src/sonarr.rs:355-361 | the create path fills in the fetched template itself, and a successful `save` overwrites it with the server's record, id included | two discovered Torznab indexers with no existing record; the server answers the first POST with 201 and a record with id 7; the second indexer is sent as PUT `/api/v3/indexer/7` and overwrites the first | each new indexer is created from a fresh copy of the template (the newer destination clones it, src/destination/sonarr.rs:448) | high; not executed | Sonarr.TemplateSavedBecomesUpdate | DestinationSonarr.RepeatedCreatePosts |

## Left out

- HTTP, async and the fetches of templates and existing records. Fetched
  lists are inputs. The server is the parameter `server`, and a transport
  error is a `Response` constructor. `Sonarr::new`, `url.join` and the
  header setup are left out.
- JSON and serde. The wire form is the `Field` datatype with an `Other`
  constructor. A response body that does not deserialise is `Malformed`.
  serde's `#[serde(default)]` field values are taken as already filled in.
- The url crate. `Url::parse` is the parameter `parse`, and a url is its
  serialisation. `default_url()` is the constant `http://example.com/`, the
  url crate's serialisation of `http://example.com`.
- `f32` seed ratios. They are carried as opaque 32-bit values, compared by
  equality only.
- `usize` is `nat`. Ids are parsed as `usize` on a 64-bit target, which is
  the only place the width matters.
- Logging and `println!`. This includes the `unwrap`s evaluated only inside
  log macros in the newer `save`: the error message of a client error, and
  the id after a 201/202.
- The potato feed. It is not part of this model.
- `is_http_url`, src/error.rs, src/main.rs and the indexer names built in
  src/jackett.rs. None of them is part of this model.
- DestinationSonarr.Save: the model does not distinguish a 201/202 body that
  is not JSON from one that is JSON but not a record. Both are `Malformed`.
- Sonarr.ProcessIndexer: the mutation through `&mut` into `existing_indexers`
  or `schemas` is modelled by `SaveInPlace`, which writes the list position.
  Aliasing is not modelled.
