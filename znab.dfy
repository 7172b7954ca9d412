/** The capability classifier of a Newznab/Torznab feed (src/znab.rs): sorts
    a tracker's category list into series, movies and anime buckets by ASCII
    case-insensitive substring match on the category name, and extracts the
    category ids. */
module Znab {
  import opened Seqs
  import opened Numerals

  /** One category a tracker advertises, as the catalog sends it. */
  datatype Capability = Capability(id: string, name: string)

  function LowerChar(c: char): char {
    if 'A' <= c <= 'Z' then (c as int + 32) as char else c
  }

  /** `str::to_ascii_lowercase`: ASCII capitals lowered, everything else kept. */
  function ToAsciiLower(s: string): (r: string)
    ensures |r| == |s|
    ensures forall i :: 0 <= i < |s| ==> r[i] == LowerChar(s[i])
  {
    seq(|s|, i requires 0 <= i < |s| => LowerChar(s[i]))
  }

  /** `str::contains` with a string pattern: `sub` occurs in `s` at some
      position (the empty pattern occurs everywhere). */
  predicate Contains(s: string, sub: string) {
    exists i | 0 <= i <= |s| - |sub| :: OccursAt(s, sub, i)
  }

  predicate OccursAt(s: string, sub: string, i: int) {
    0 <= i <= |s| - |sub| && s[i..i + |sub|] == sub
  }

  /** The category name, lowered as every filter of the classifier lowers it. */
  function Lowered(cap: Capability): string {
    ToAsciiLower(cap.name)
  }

  predicate IsSeriesName(cap: Capability) {
    var name := Lowered(cap);
    Contains(name, "tv") || Contains(name, "series") || Contains(name, "episodes")
  }

  predicate IsMovieName(cap: Capability) {
    var name := Lowered(cap);
    Contains(name, "movie") || Contains(name, "film") || Contains(name, "movs")
  }

  predicate IsAnimeName(cap: Capability) {
    Contains(Lowered(cap), "anime")
  }

  /** `exclude_anime`: keeps a capability whose name does not mention anime. */
  predicate ExcludeAnime(cap: Capability) {
    !Contains(Lowered(cap), "anime")
  }

  /** A capability whose name marks adult content. */
  predicate IsAdult(cap: Capability) {
    var name := Lowered(cap);
    Contains(name, "xxx") || Contains(name, "adult") || Contains(name, "porn") || Contains(name, "hentai")
  }

  /** `exclude_porn`: keeps a capability whose name does not mark adult content. */
  predicate ExcludePorn(cap: Capability) {
    !IsAdult(cap)
  }

  /** `Capabilities::series`: the series-like, non-anime, non-adult
      capabilities, in their original order and unchanged. */
  function Series(caps: seq<Capability>): (r: seq<Capability>)
    ensures IsSubsequence(r, caps)
    ensures forall cap :: cap in r <==> cap in caps && IsSeriesName(cap) && !IsAnimeName(cap) && !IsAdult(cap)
  {
    var r := Filter(ExcludePorn, Filter(ExcludeAnime, Filter(IsSeriesName, caps)));
    SubsequenceTransitive(r, Filter(ExcludeAnime, Filter(IsSeriesName, caps)), Filter(IsSeriesName, caps));
    SubsequenceTransitive(r, Filter(IsSeriesName, caps), caps);
    r
  }

  /** `Capabilities::anime`: the anime capabilities that are not adult, in
      their original order and unchanged. */
  function Anime(caps: seq<Capability>): (r: seq<Capability>)
    ensures IsSubsequence(r, caps)
    ensures forall cap :: cap in r <==> cap in caps && IsAnimeName(cap) && !IsAdult(cap)
  {
    var r := Filter(ExcludePorn, Filter(IsAnimeName, caps));
    SubsequenceTransitive(r, Filter(IsAnimeName, caps), caps);
    r
  }

  /** `Capabilities::movies`: the movie-like, non-anime, non-adult
      capabilities, in their original order and unchanged. */
  function Movies(caps: seq<Capability>): (r: seq<Capability>)
    ensures IsSubsequence(r, caps)
    ensures forall cap :: cap in r <==> cap in caps && IsMovieName(cap) && !IsAnimeName(cap) && !IsAdult(cap)
  {
    var r := Filter(ExcludePorn, Filter(ExcludeAnime, Filter(IsMovieName, caps)));
    SubsequenceTransitive(r, Filter(ExcludeAnime, Filter(IsMovieName, caps)), Filter(IsMovieName, caps));
    SubsequenceTransitive(r, Filter(IsMovieName, caps), caps);
    r
  }

  /** Each bucket of a concatenation is the concatenation of the buckets:
      like `filter`, the buckets keep every occurrence, in order. */
  lemma BucketsAppend(a: seq<Capability>, b: seq<Capability>)
    ensures Series(a + b) == Series(a) + Series(b)
    ensures Anime(a + b) == Anime(a) + Anime(b)
    ensures Movies(a + b) == Movies(a) + Movies(b)
  {
    FilterAppend(IsSeriesName, a, b);
    FilterAppend(ExcludeAnime, Filter(IsSeriesName, a), Filter(IsSeriesName, b));
    FilterAppend(ExcludePorn, Filter(ExcludeAnime, Filter(IsSeriesName, a)), Filter(ExcludeAnime, Filter(IsSeriesName, b)));
    FilterAppend(IsAnimeName, a, b);
    FilterAppend(ExcludePorn, Filter(IsAnimeName, a), Filter(IsAnimeName, b));
    FilterAppend(IsMovieName, a, b);
    FilterAppend(ExcludeAnime, Filter(IsMovieName, a), Filter(IsMovieName, b));
    FilterAppend(ExcludePorn, Filter(ExcludeAnime, Filter(IsMovieName, a)), Filter(ExcludeAnime, Filter(IsMovieName, b)));
  }

  /** A single capability forms a bucket of its own exactly when it passes
      that bucket's tests; with `BucketsAppend` this fixes every bucket of
      every list, duplicates included. */
  lemma BucketsSingle(cap: Capability)
    ensures Series([cap]) == if IsSeriesName(cap) && !IsAnimeName(cap) && !IsAdult(cap) then [cap] else []
    ensures Anime([cap]) == if IsAnimeName(cap) && !IsAdult(cap) then [cap] else []
    ensures Movies([cap]) == if IsMovieName(cap) && !IsAnimeName(cap) && !IsAdult(cap) then [cap] else []
  {
  }

  /** A capability listed twice that passes the series tests is kept twice. */
  lemma SeriesKeepsDuplicates(cap: Capability)
    requires IsSeriesName(cap) && !IsAnimeName(cap) && !IsAdult(cap)
    ensures Series([cap, cap]) == [cap, cap]
  {
    BucketsAppend([cap], [cap]);
    assert [cap] + [cap] == [cap, cap];
  }

  /** The anime bucket shares no capability with the series bucket nor with
      the movies bucket. */
  lemma AnimeDisjoint(caps: seq<Capability>, cap: Capability)
    ensures cap in Anime(caps) ==> cap !in Series(caps) && cap !in Movies(caps)
  {
  }

  /** An adult capability lands in no bucket. */
  lemma AdultInNoBucket(caps: seq<Capability>, cap: Capability)
    requires IsAdult(cap)
    ensures cap !in Series(caps) && cap !in Movies(caps) && cap !in Anime(caps)
  {
  }

  /** A pattern whose first character does not occur in `s` does not occur
      in `s`. */
  lemma NotContainsFirstChar(s: string, sub: string)
    requires |sub| > 0 && sub[0] !in s
    ensures !Contains(s, sub)
  {
    forall i | 0 <= i <= |s| - |sub| ensures !OccursAt(s, sub, i) {
      assert s[i..i + |sub|][0] == s[i] && s[i] in s;
    }
  }

  /** The source's own example "TV/HD" is a series category only. */
  lemma ClassifyTvHd(caps: seq<Capability>, id: string)
    requires Capability(id, "TV/HD") in caps
    ensures Capability(id, "TV/HD") in Series(caps)
    ensures Capability(id, "TV/HD") !in Movies(caps) && Capability(id, "TV/HD") !in Anime(caps)
  {
    var cap := Capability(id, "TV/HD");
    var name := Lowered(cap);
    assert name == "tv/hd";
    assert OccursAt(name, "tv", 0);
    NotContainsFirstChar(name, "anime");
    NotContainsFirstChar(name, "xxx");
    NotContainsFirstChar(name, "adult");
    NotContainsFirstChar(name, "porn");
    NotContainsFirstChar(name, "movie");
    NotContainsFirstChar(name, "film");
    NotContainsFirstChar(name, "movs");
  }

  /** The source's own example "Anime" is an anime category only. */
  lemma ClassifyAnime(caps: seq<Capability>, id: string)
    requires Capability(id, "Anime") in caps
    ensures Capability(id, "Anime") in Anime(caps)
    ensures Capability(id, "Anime") !in Series(caps) && Capability(id, "Anime") !in Movies(caps)
  {
    var cap := Capability(id, "Anime");
    var name := Lowered(cap);
    assert name == "anime";
    assert OccursAt(name, "anime", 0);
    NotContainsFirstChar(name, "xxx");
    NotContainsFirstChar(name, "porn");
    assert !OccursAt(name, "adult", 0);
  }

  /** The source's own example "XXX-Anime" lands in no bucket. */
  lemma ClassifyXxxAnime(caps: seq<Capability>, id: string)
    ensures Capability(id, "XXX-Anime") !in Series(caps)
    ensures Capability(id, "XXX-Anime") !in Movies(caps) && Capability(id, "XXX-Anime") !in Anime(caps)
  {
    var cap := Capability(id, "XXX-Anime");
    assert Lowered(cap)[0..3] == "xxx";
    assert OccursAt(Lowered(cap), "xxx", 0);
    AdultInNoBucket(caps, cap);
  }

  /** A capability may be in both the series and the movies bucket: a name
      such as "TV Movies" passes both inclusion tests and neither exclusion. */
  lemma SeriesAndMoviesOverlap(id: string)
    ensures Capability(id, "TV Movies") in Series([Capability(id, "TV Movies")])
    ensures Capability(id, "TV Movies") in Movies([Capability(id, "TV Movies")])
  {
    var cap := Capability(id, "TV Movies");
    var name := Lowered(cap);
    assert name == "tv movies";
    assert OccursAt(name, "tv", 0);
    assert name[3..8] == "movie";
    assert OccursAt(name, "movie", 3);
    NotContainsFirstChar(name, "anime");
    NotContainsFirstChar(name, "xxx");
    NotContainsFirstChar(name, "adult");
    NotContainsFirstChar(name, "porn");
    NotContainsFirstChar(name, "hentai");
  }

  /** `Ids<String>::ids`: every capability's id, one for one. */
  function IdStrings(caps: seq<Capability>): (r: seq<string>)
    ensures |r| == |caps|
    ensures forall i :: 0 <= i < |caps| ==> r[i] == caps[i].id
  {
    seq(|caps|, i requires 0 <= i < |caps| => caps[i].id)
  }

  function ParseId(cap: Capability): Option<nat> {
    ParseUsize(cap.id)
  }

  /** `Ids<usize>::ids`: the ids that parse as `usize`, in order; the others
      are dropped without an error. */
  function Ids(caps: seq<Capability>): (r: seq<nat>)
    ensures |r| <= |caps|
    ensures forall k :: 0 <= k < |r| ==> r[k] < UsizeLimit && exists i :: 0 <= i < |caps| && ParseUsize(caps[i].id) == Some(r[k])
  {
    FilterMap(ParseId, caps)
  }

  /** A capability whose id does not parse contributes nothing, wherever it
      stands. */
  lemma IdsDropNonNumeric(before: seq<Capability>, cap: Capability, after: seq<Capability>)
    requires ParseUsize(cap.id).None?
    ensures Ids(before + [cap] + after) == Ids(before + after)
  {
    FilterMapAppend(ParseId, before + [cap], after);
    FilterMapAppend(ParseId, before, [cap]);
    FilterMapAppend(ParseId, before, after);
  }

  /** When every id parses, the numeric ids are the string ids parsed, one for
      one and in order. */
  lemma IdsAllNumeric(caps: seq<Capability>)
    requires forall i :: 0 <= i < |caps| ==> ParseUsize(caps[i].id).Some?
    ensures |Ids(caps)| == |caps|
    ensures forall i :: 0 <= i < |caps| ==> Ids(caps)[i] == ParseUsize(IdStrings(caps)[i]).value
  {
    assert forall i :: 0 <= i < |caps| ==> ParseId(caps[i]).Some?;
    FilterMapTotal(ParseId, caps);
  }

  /** The ids of a category list split in two are the ids of each part. */
  lemma IdsAppend(a: seq<Capability>, b: seq<Capability>)
    ensures Ids(a + b) == Ids(a) + Ids(b)
  {
    FilterMapAppend(ParseId, a, b);
  }

  /** Every series category id comes from a capability of the list that is a
      series category and neither anime nor adult. */
  lemma SeriesIdsOrigin(caps: seq<Capability>)
    ensures forall k :: 0 <= k < |Ids(Series(caps))| ==>
      exists i :: 0 <= i < |caps| && IsSeriesName(caps[i]) && !IsAnimeName(caps[i]) && !IsAdult(caps[i]) &&
                  ParseUsize(caps[i].id) == Some(Ids(Series(caps))[k])
  {
    var ids := Ids(Series(caps));
    forall k | 0 <= k < |ids|
      ensures exists i :: 0 <= i < |caps| && IsSeriesName(caps[i]) && !IsAnimeName(caps[i]) && !IsAdult(caps[i]) &&
                          ParseUsize(caps[i].id) == Some(ids[k])
    {
      var bucket := Series(caps);
      var j :| 0 <= j < |bucket| && ParseUsize(bucket[j].id) == Some(ids[k]);
      assert bucket[j] in bucket;
      var i :| 0 <= i < |caps| && caps[i] == bucket[j];
      assert IsSeriesName(caps[i]) && !IsAnimeName(caps[i]) && !IsAdult(caps[i]) && ParseUsize(caps[i].id) == Some(ids[k]);
    }
  }

  /** Every anime category id comes from a capability of the list that is an
      anime category and not adult. */
  lemma AnimeIdsOrigin(caps: seq<Capability>)
    ensures forall k :: 0 <= k < |Ids(Anime(caps))| ==>
      exists i :: 0 <= i < |caps| && IsAnimeName(caps[i]) && !IsAdult(caps[i]) &&
                  ParseUsize(caps[i].id) == Some(Ids(Anime(caps))[k])
  {
    var ids := Ids(Anime(caps));
    forall k | 0 <= k < |ids|
      ensures exists i :: 0 <= i < |caps| && IsAnimeName(caps[i]) && !IsAdult(caps[i]) &&
                          ParseUsize(caps[i].id) == Some(ids[k])
    {
      var bucket := Anime(caps);
      var j :| 0 <= j < |bucket| && ParseUsize(bucket[j].id) == Some(ids[k]);
      assert bucket[j] in bucket;
      var i :| 0 <= i < |caps| && caps[i] == bucket[j];
      assert IsAnimeName(caps[i]) && !IsAdult(caps[i]) && ParseUsize(caps[i].id) == Some(ids[k]);
    }
  }

  lemma TvNameFacts(t: string)
    ensures var c := Capability(t, "TV"); IsSeriesName(c) && !IsMovieName(c) && !IsAnimeName(c) && !IsAdult(c)
  {
    var l := Lowered(Capability(t, "TV"));
    assert |l| == 2 && l[0] == 't' && l[1] == 'v';
    assert l == "tv";
    assert OccursAt("tv", "tv", 0);
    NotContainsFirstChar("tv", "anime");
    NotContainsFirstChar("tv", "movie");
    NotContainsFirstChar("tv", "film");
    NotContainsFirstChar("tv", "movs");
    NotContainsFirstChar("tv", "xxx");
    NotContainsFirstChar("tv", "adult");
    NotContainsFirstChar("tv", "porn");
    NotContainsFirstChar("tv", "hentai");
  }

  lemma AnimeNameFacts(a: string)
    ensures var c := Capability(a, "Anime"); IsAnimeName(c) && !IsSeriesName(c) && !IsMovieName(c) && !IsAdult(c)
  {
    var l := Lowered(Capability(a, "Anime"));
    assert |l| == 5 && l[0] == 'a' && l[1] == 'n' && l[2] == 'i' && l[3] == 'm' && l[4] == 'e';
    assert l == "anime";
    AnimeWordFacts();
  }

  /** The lowered name "anime" mentions anime and none of the other words. */
  lemma AnimeWordFacts()
    ensures Contains("anime", "anime")
    ensures !Contains("anime", "tv") && !Contains("anime", "series") && !Contains("anime", "episodes")
    ensures !Contains("anime", "movie") && !Contains("anime", "film") && !Contains("anime", "movs")
    ensures !Contains("anime", "xxx") && !Contains("anime", "adult") && !Contains("anime", "porn") && !Contains("anime", "hentai")
  {
    assert OccursAt("anime", "anime", 0);
    NotContainsFirstChar("anime", "tv");
    NotContainsFirstChar("anime", "series");
    assert !Contains("anime", "episodes");
    assert !OccursAt("anime", "movie", 0);
    NotContainsFirstChar("anime", "film");
    assert !OccursAt("anime", "movs", 0) && !OccursAt("anime", "movs", 1);
    NotContainsFirstChar("anime", "xxx");
    NotContainsFirstChar("anime", "porn");
    NotContainsFirstChar("anime", "hentai");
    assert !OccursAt("anime", "adult", 0);
  }

  lemma XxxNameFacts(x: string)
    ensures var c := Capability(x, "XXX"); IsAdult(c) && !IsSeriesName(c) && !IsMovieName(c) && !IsAnimeName(c)
  {
    var l := Lowered(Capability(x, "XXX"));
    assert |l| == 3 && l[0] == 'x' && l[1] == 'x' && l[2] == 'x';
    assert l == "xxx";
    assert OccursAt("xxx", "xxx", 0);
    NotContainsFirstChar("xxx", "tv");
    NotContainsFirstChar("xxx", "series");
    NotContainsFirstChar("xxx", "episodes");
    NotContainsFirstChar("xxx", "movie");
    NotContainsFirstChar("xxx", "film");
    NotContainsFirstChar("xxx", "movs");
    NotContainsFirstChar("xxx", "anime");
  }

  /** A list of the three categories "TV", "Anime" and "XXX" is bucketed as
      the classifier intends: "TV" alone is a series category, "Anime" alone
      an anime category, and none is a movie category. */
  lemma ClassifyTvAnimeXxx(t: string, a: string, x: string)
    ensures var caps := [Capability(t, "TV"), Capability(a, "Anime"), Capability(x, "XXX")];
      Series(caps) == [caps[0]] && Anime(caps) == [caps[1]] && Movies(caps) == []
  {
    var tv, anime, xxx := Capability(t, "TV"), Capability(a, "Anime"), Capability(x, "XXX");
    var caps := [tv, anime, xxx];
    TvNameFacts(t);
    AnimeNameFacts(a);
    XxxNameFacts(x);
    assert caps[1..] == [anime, xxx] && caps[1..][1..] == [xxx] && [xxx][1..] == [];
    assert Filter(IsSeriesName, caps) == [tv];
    assert Filter(IsAnimeName, caps) == [anime];
    assert Filter(IsMovieName, caps) == [];
    assert [tv][1..] == [] && [anime][1..] == [];
    assert Filter(ExcludeAnime, [tv]) == [tv];
    assert Filter(ExcludePorn, [tv]) == [tv];
    assert Filter(ExcludePorn, [anime]) == [anime];
  }
}
