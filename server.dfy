/** The request-side logic of server.go: the limit parameter and the bonus search handler. */
module Server {
  import opened Wrappers
  import opened Strconv
  import opened Types

  /** The supported languages, in the order the reconciler visits them. */
  const LANGUAGES: seq<string> := ["en", "fr", "de", "es", "pt"]

  const DEFAULT_LIMIT: string := "8"
  const MAX_LIMIT: int := 100

  /** The search index that holds the bonuses of one language. */
  function IndexName(lang: string): (name: string)
    ensures |name| == 12 + |lang| && name[..12] == "alm-bonuses-" && name[12..] == lang
  {
    "alm-bonuses-" + lang
  }

  /** Different languages have different indexes. */
  lemma IndexNameDiffers(a: string, b: string)
    requires a != b
    ensures IndexName(a) != IndexName(b)
  {
    assert IndexName(a)[12..] == a;
    assert IndexName(b)[12..] == b;
  }

  /** The decimal spelling of a Go `int`, with a leading minus when negative. */
  function Spell(n: int): string {
    if n < 0 then "-" + Itoa(-n) else Itoa(n)
  }

  /**
   * `getLimitInBoundary`: an empty parameter means the default of 8; a value
   * `Atoi` rejects is invalid, and a parsed value above 100 is too high. There
   * is no lower bound.
   */
  function GetLimitInBoundary(limitStr: string): (r: Result<int, string>)
    ensures r.Success? ==> MIN_INT64 <= r.value <= MAX_LIMIT
    ensures r.Failure? ==> r.error == "invalid limit value" || r.error == "limit value is too high"
  {
    var s := if limitStr == "" then DEFAULT_LIMIT else limitStr;
    match Atoi(s)
    case None => Failure("invalid limit value")
    case Some(limit) => if limit > MAX_LIMIT then Failure("limit value is too high") else Success(limit)
  }

  lemma LimitDefaultsToEight()
    ensures GetLimitInBoundary("") == Success(8)
  {
    assert DEFAULT_LIMIT == Itoa(8);
    AtoiItoa(8);
  }

  /** Every value up to 100 is passed through unchanged, including 0 and negatives. */
  lemma LimitInBoundsIsKept(n: int)
    requires MIN_INT64 <= n <= MAX_LIMIT
    ensures GetLimitInBoundary(Spell(n)) == Success(n)
  {
    if n < 0 {
      AtoiNegatedItoa(-n);
    } else {
      AtoiItoa(n);
    }
  }

  /** A number above 100 that `Atoi` can read is too high. */
  lemma LimitAboveMaxIsTooHigh(n: int)
    requires MAX_LIMIT < n <= MAX_INT64
    ensures GetLimitInBoundary(Spell(n)) == Failure("limit value is too high")
  {
    AtoiItoa(n);
  }

  /** A number beyond the 64-bit range fails to parse, so it is invalid rather than too high. */
  lemma LimitOverflowIsInvalid(n: int)
    requires n > MAX_INT64
    ensures GetLimitInBoundary(Spell(n)) == Failure("invalid limit value")
  {
    AtoiRejectsOverflow(n);
  }

  /** A parameter holding a character that is neither a digit nor a leading sign is invalid. */
  lemma LimitNotNumericIsInvalid(limitStr: string, i: nat)
    requires NonDigitAt(limitStr, i)
    ensures GetLimitInBoundary(limitStr) == Failure("invalid limit value")
  {
    AtoiRejectsNonDigit(limitStr, i);
  }

  /** A bare sign is invalid. */
  lemma LimitLoneSignIsInvalid(limitStr: string)
    requires limitStr == "+" || limitStr == "-"
    ensures GetLimitInBoundary(limitStr) == Failure("invalid limit value")
  {
    AtoiRejectsLoneSign(limitStr);
  }

  lemma LimitExamples()
    ensures GetLimitInBoundary("150") == Failure("limit value is too high")
    ensures GetLimitInBoundary("100") == Success(100)
    ensures GetLimitInBoundary("abc") == Failure("invalid limit value")
  {
    assert "150" == Spell(150) && "100" == Spell(100);
    LimitAboveMaxIsTooHigh(150);
    LimitInBoundsIsKept(100);
    assert !IsDigit("abc"[0]);
  }

  /** One search hit: the `slug` and `name` attributes of the indexed document. */
  datatype Hit = Hit(slug: string, name: string)

  /** What the search service answers to one query. */
  datatype SearchResponse = SearchFailed(message: string) | SearchHits(estimatedTotalHits: int, hits: seq<Hit>)

  /** What the handler writes: an error status with its message, or the JSON list of listings. */
  datatype Response = Problem(status: int, message: string) | Listings(body: seq<AlmanaxBonusListing>)

  /**
   * `SearchBonuses`. `lang` is the value the language checker stored; `search`
   * answers a query with a limit on a named index.
   */
  method SearchBonuses(query: string, lang: string, limitStr: string, search: (string, string, int) -> SearchResponse)
    returns (resp: Response)
    ensures query == "" ==> resp == Problem(400, "Query parameter is required.")
    ensures query != "" && lang == "pt" ==>
      resp == Problem(400, "Portuguese language is not translated for Almanax Bonuses.")
    ensures query != "" && lang != "pt" ==>
      match GetLimitInBoundary(limitStr)
      case Failure(e) => resp == Problem(400, "Invalid limit value: " + e)
      case Success(limit) =>
        match search(IndexName(lang), query, limit)
        case SearchFailed(m) => resp == Problem(500, "Could not search: " + m)
        case SearchHits(total, hits) =>
          if total == 0 then resp == Problem(404, "No results found.")
          else
            && resp.Listings?
            && |resp.body| == |hits|
            && forall i :: 0 <= i < |hits| ==> resp.body[i] == AlmanaxBonusListing(hits[i].slug, hits[i].name)
    ensures lang == "pt" ==> resp.Problem? && resp.status == 400
  {
    if query == "" {
      return Problem(400, "Query parameter is required.");
    }
    if lang == "pt" {
      return Problem(400, "Portuguese language is not translated for Almanax Bonuses.");
    }
    var limit := GetLimitInBoundary(limitStr);
    if limit.Failure? {
      return Problem(400, "Invalid limit value: " + limit.error);
    }
    var searchResp := search(IndexName(lang), query, limit.value);
    if searchResp.SearchFailed? {
      return Problem(500, "Could not search: " + searchResp.message);
    }
    if searchResp.estimatedTotalHits == 0 {
      return Problem(404, "No results found.");
    }
    var results: seq<AlmanaxBonusListing> := [];
    for i := 0 to |searchResp.hits|
      invariant |results| == i
      invariant forall j :: 0 <= j < i ==>
        results[j] == AlmanaxBonusListing(searchResp.hits[j].slug, searchResp.hits[j].name)
    {
      var hit := searchResp.hits[i];
      results := results + [AlmanaxBonusListing(hit.slug, hit.name)];
    }
    return Listings(results);
  }
}
