/** The request arithmetic and cache keys of
    backend/src/controllers/bookController.ts: page and limit defaulting,
    `skip`, the page count, the three cache-key formats and what the review
    controller's wildcard invalidation removes, genre normalisation, the
    list filter, and the input checks that precede the database calls. */
module BookController {
  import opened Wrappers
  import opened JsValues
  import opened Glob
  import Cache
  import ErrorHandler

  /** `API.DEFAULT_LIMIT` of backend/src/utils/constants.ts. */
  const DefaultLimit := 10

  /** `parseInt(query) || fallback`: the parsed value is taken as an input
      (`None` for NaN); NaN and 0 are falsy and give way to the fallback. */
  function OrDefault(parsed: Option<int>, fallback: int): (r: int)
    ensures parsed.Some? && parsed.value != 0 ==> r == parsed.value
    ensures parsed.None? || parsed == Some(0) ==> r == fallback
  {
    if parsed.Some? && parsed.value != 0 then parsed.value else fallback
  }

  datatype Paging = Paging(page: int, limit: int, skip: int)

  /** The three lines every handler starts with: page, limit and skip. */
  function Paginate(pageQuery: Option<int>, limitQuery: Option<int>): (p: Paging)
    ensures p.page != 0 && p.limit != 0
    ensures p.page == OrDefault(pageQuery, 1) && p.limit == OrDefault(limitQuery, DefaultLimit)
    ensures p.skip == (p.page - 1) * p.limit
  {
    var page := OrDefault(pageQuery, 1);
    var limit := OrDefault(limitQuery, DefaultLimit);
    Paging(page, limit, (page - 1) * limit)
  }

  /** `Math.ceil(a / b)` on integers, for either sign of `b`. */
  function CeilDiv(a: int, b: int): (q: int)
    requires b != 0
    ensures b > 0 ==> (q - 1) * b < a <= q * b
    ensures b < 0 ==> q * b <= a < (q - 1) * b
  {
    if b > 0 then
      var d := (-a) / b;
      assert -a == d * b + (-a) % b;
      -d
    else
      var d := a / (-b);
      assert a == d * (-b) + a % (-b);
      -d
  }

  /** `pages: Math.ceil(total / limit)`. */
  function PageCount(total: nat, limit: int): (pages: int)
    requires limit != 0
    ensures limit > 0 ==> pages >= 0 && (pages == 0 <==> total == 0)
  {
    CeilDiv(total, limit)
  }

  /** With a positive limit every item lies on exactly one page between 1
      and the page count: the window that page's `skip` and `limit` select. */
  lemma ItemOnItsPage(total: nat, limit: int, i: int)
    requires limit > 0 && 0 <= i < total
    ensures var page := i / limit + 1;
      && 1 <= page <= PageCount(total, limit)
      && var p := Paginate(Some(page), Some(limit));
         p.skip <= i < p.skip + limit
  {
    var page := i / limit + 1;
    var pages := PageCount(total, limit);
    assert i == (i / limit) * limit + i % limit;
    assert (page - 1) * limit <= i < page * limit;
  }

  /** With a positive limit the last page is never empty. */
  lemma LastPageNonEmpty(total: nat, limit: int)
    requires limit > 0 && total > 0
    ensures var pages := PageCount(total, limit);
      Paginate(Some(pages), Some(limit)).skip < total
  {
  }

  // Cache keys.

  function RenderPaging(page: int, limit: int): string {
    IntToString(page) + ":" + IntToString(limit)
  }

  /** `books:<JSON of the filter>:<page>:<limit>`. */
  function ListKey(filterJson: string, page: int, limit: int): (r: string)
    ensures "books:" <= r && r[4] == 's'
    ensures var paging := RenderPaging(page, limit);
      |paging| < |r| && r[|r| - |paging| - 1..] == ":" + paging
  {
    var front, tail := "books:" + filterJson, ":" + RenderPaging(page, limit);
    assert (front + tail)[|front|..] == tail;
    front + tail
  }

  function ReviewsPrefix(bookId: string): string {
    "book:" + bookId + ":reviews:"
  }

  /** `book:<id>:reviews:<page>:<limit>`. */
  function ReviewsKey(bookId: string, page: int, limit: int): (r: string)
    ensures "book:" <= r && r[4] == ':'
    ensures ReviewsPrefix(bookId) <= r && r[|ReviewsPrefix(bookId)|..] == RenderPaging(page, limit)
  {
    ReviewsPrefix(bookId) + RenderPaging(page, limit)
  }

  /** `books:search:<query>:<page>:<limit>`, the query embedded raw. */
  function SearchKey(query: string, page: int, limit: int): (r: string)
    ensures "books:search:" <= r && r[4] == 's'
    ensures var paging := RenderPaging(page, limit);
      |paging| < |r| && r[|r| - |paging| - 1..] == ":" + paging
  {
    var front, tail := "books:search:" + query, ":" + RenderPaging(page, limit);
    assert (front + tail)[|front|..] == tail;
    front + tail
  }

  /** The pattern the review controller deletes after a review changes. */
  function ReviewsPattern(bookId: string): string {
    ReviewsPrefix(bookId) + "*"
  }

  predicate IsHexDigit(c: char) {
    '0' <= c <= '9' || 'a' <= c <= 'f' || 'A' <= c <= 'F'
  }

  /** A 24-digit hexadecimal ObjectId string, in either case. */
  predicate IsHexId(id: string) {
    |id| == 24 && forall i :: 0 <= i < |id| ==> IsHexDigit(id[i])
  }

  lemma RenderPagingPlain(page: int, limit: int)
    ensures NoLineTerminator(RenderPaging(page, limit))
    ensures '*' !in RenderPaging(page, limit)
    ensures RegexLiteral(RenderPaging(page, limit))
  {
    var r := RenderPaging(page, limit);
    forall i | 0 <= i < |r| ensures !IsLineTerminator(r[i]) && r[i] != '*' && r[i] !in RegexSyntax {
      var a, b := IntToString(page), IntToString(limit);
      if i < |a| { assert r[i] == a[i]; }
      else if i > |a| { assert r[i] == b[i - |a| - 1]; }
    }
  }

  lemma ReviewsPrefixStarFree(bookId: string)
    requires '*' !in bookId
    ensures '*' !in ReviewsPrefix(bookId)
  {
    var p := ReviewsPrefix(bookId);
    forall i | 0 <= i < |p| ensures p[i] != '*' {
      if 5 <= i < 5 + |bookId| { assert p[i] == bookId[i - 5]; }
    }
  }

  /** The invalidation pattern of a book matches every reviews key of that book. */
  lemma InvalidationHitsOwnReviews(bookId: string, page: int, limit: int)
    requires '*' !in bookId
    ensures GlobMatch(ReviewsPattern(bookId), ReviewsKey(bookId, page, limit))
  {
    var prefix, key := ReviewsPrefix(bookId), ReviewsKey(bookId, page, limit);
    ReviewsPrefixStarFree(bookId);
    PrefixStarMatches(prefix, key);
    assert key[|prefix|..] == RenderPaging(page, limit);
    RenderPagingPlain(page, limit);
  }

  /** In a key that begins `book:<a>:`, with `a` colon-free, the first colon
      after `book:` is the one right after `a`. */
  lemma FirstColonAfterId(a: string, key: string)
    requires ':' !in a
    requires "book:" + a + ":" <= key
    ensures 5 + |a| < |key| && key[5 + |a|] == ':'
    ensures forall j :: 5 <= j < 5 + |a| ==> key[j] == a[j - 5] && key[j] != ':'
  {
    var pa := "book:" + a + ":";
    assert pa[5 + |a|] == ':';
    forall j | 5 <= j < 5 + |a| ensures key[j] == a[j - 5] && key[j] != ':' {
      assert pa[j] == a[j - 5];
    }
  }

  /** `book:<a>:` can only begin `book:<b>:...` if `a == b`, for colon-free ids. */
  lemma ColonDelimitedId(a: string, b: string, key: string)
    requires ':' !in a && ':' !in b
    requires "book:" + a + ":" <= key
    requires "book:" + b + ":" <= key
    ensures a == b
  {
    FirstColonAfterId(a, key);
    FirstColonAfterId(b, key);
    assert |a| == |b|;
    forall j | 0 <= j < |a| ensures a[j] == b[j] {
      assert key[5 + j] == a[j];
    }
  }

  /** ...and no reviews key of another book with a colon-free id. */
  lemma InvalidationSparesOtherBooks(bookId: string, otherId: string, page: int, limit: int)
    requires '*' !in bookId && ':' !in bookId && ':' !in otherId
    requires bookId != otherId
    ensures !GlobMatch(ReviewsPattern(bookId), ReviewsKey(otherId, page, limit))
  {
    var prefix, key := ReviewsPrefix(bookId), ReviewsKey(otherId, page, limit);
    ReviewsPrefixStarFree(bookId);
    PrefixStarMatches(prefix, key);
    if prefix <= key {
      assert "book:" + bookId + ":" <= key by {
        assert "book:" + bookId + ":" <= prefix;
      }
      assert "book:" + otherId + ":" <= key by {
        assert "book:" + otherId + ":" <= ReviewsPrefix(otherId);
      }
      ColonDelimitedId(bookId, otherId, key);
    }
  }

  /** ...and no list or search key, which begin `books:` rather than `book:`. */
  lemma InvalidationSparesListAndSearch(bookId: string, filterJson: string, query: string, page: int, limit: int)
    requires '*' !in bookId
    ensures !GlobMatch(ReviewsPattern(bookId), ListKey(filterJson, page, limit))
    ensures !GlobMatch(ReviewsPattern(bookId), SearchKey(query, page, limit))
  {
    var prefix := ReviewsPrefix(bookId);
    ReviewsPrefixStarFree(bookId);
    var list, search := ListKey(filterJson, page, limit), SearchKey(query, page, limit);
    PrefixStarMatches(prefix, list);
    PrefixStarMatches(prefix, search);
    assert prefix[4] == ':' && list[4] == 's' && search[4] == 's';
  }

  lemma HexIdPlain(id: string)
    requires IsHexId(id)
    ensures '*' !in id && ':' !in id
  {
    forall i | 0 <= i < |id| ensures id[i] != '*' && id[i] != ':' {
      assert IsHexDigit(id[i]);
    }
  }

  /** The invalidation pattern of a hexadecimal id is a regex-literal glob. */
  lemma HexIdPatternDeletable(bookId: string)
    requires IsHexId(bookId)
    ensures Cache.DeletableByGlob(ReviewsPattern(bookId))
  {
    var p := ReviewsPattern(bookId);
    forall i | 0 <= i < |p| ensures p[i] !in RegexSyntax {
      if 5 <= i < 5 + |bookId| { assert p[i] == bookId[i - 5]; }
    }
  }

  /** `cacheManager.delete("book:<id>:reviews:*")` for a hexadecimal id:
      every reviews key of that book goes; the reviews keys of every other
      hexadecimal id, and every list and search key, stay with their entries. */
  lemma InvalidationEffect<T>(m: Cache.Store<T>, bookId: string)
    requires IsHexId(bookId)
    ensures Cache.DeletableByGlob(ReviewsPattern(bookId))
    ensures var r := Cache.Deleted(m, ReviewsPattern(bookId));
      && (forall page, limit :: ReviewsKey(bookId, page, limit) !in r)
      && (forall otherId, page, limit :: IsHexId(otherId) && otherId != bookId && ReviewsKey(otherId, page, limit) in m
            ==> ReviewsKey(otherId, page, limit) in r && r[ReviewsKey(otherId, page, limit)] == m[ReviewsKey(otherId, page, limit)])
      && (forall filterJson, page, limit :: ListKey(filterJson, page, limit) in m
            ==> ListKey(filterJson, page, limit) in r)
      && (forall query, page, limit :: SearchKey(query, page, limit) in m
            ==> SearchKey(query, page, limit) in r)
  {
    HexIdPatternDeletable(bookId);
    HexIdPlain(bookId);
    var r := Cache.Deleted(m, ReviewsPattern(bookId));
    forall page, limit ensures ReviewsKey(bookId, page, limit) !in r {
      InvalidationHitsOwnReviews(bookId, page, limit);
    }
    forall otherId, page, limit | IsHexId(otherId) && otherId != bookId && ReviewsKey(otherId, page, limit) in m
      ensures ReviewsKey(otherId, page, limit) in r
    {
      HexIdPlain(otherId);
      InvalidationSparesOtherBooks(bookId, otherId, page, limit);
    }
    forall filterJson, page, limit | ListKey(filterJson, page, limit) in m
      ensures ListKey(filterJson, page, limit) in r
    {
      InvalidationSparesListAndSearch(bookId, filterJson, "", page, limit);
    }
    forall query, page, limit | SearchKey(query, page, limit) in m
      ensures SearchKey(query, page, limit) in r
    {
      InvalidationSparesListAndSearch(bookId, "", query, page, limit);
    }
  }

  /** A search key embeds the raw query, so a query with a `*` makes a key
      that lazy eviction hands to `delete` as a pattern: when such an entry
      is found expired, `get` also evicts the entries of every query the
      pattern matches, at the same page and limit. The rest of the query is
      free of regular-expression syntax, so the compiled expression is the glob. */
  lemma ExpiredStarQueryEvictsOtherQueries<T>(m: Cache.Store<T>, before: string, after: string, mid: string,
                                             page: int, limit: int, now: int)
    requires '*' !in before && '*' !in after && NoLineTerminator(mid)
    requires RegexLiteral(before) && RegexLiteral(after)
    requires SearchKey(before + "*" + after, page, limit) in m
    requires Cache.Expired(m[SearchKey(before + "*" + after, page, limit)], now)
    ensures Cache.DeletableByGlob(SearchKey(before + "*" + after, page, limit))
    ensures SearchKey(before + mid + after, page, limit) !in Cache.AfterGet(m, SearchKey(before + "*" + after, page, limit), now)
  {
    var prefix, suffix := "books:search:" + before, after + ":" + RenderPaging(page, limit);
    SearchKeyAround(before, "*", after, page, limit);
    SearchKeyAround(before, mid, after, page, limit);
    SearchPartsLiteral(before, after, page, limit);
    Cache.ExpiredStarKeyEvictsMatches(m, prefix, suffix, mid, now);
  }

  /** A search key regrouped around one part of its query. */
  lemma SearchKeyAround(before: string, x: string, after: string, page: int, limit: int)
    ensures SearchKey(before + x + after, page, limit)
      == ("books:search:" + before) + x + (after + ":" + RenderPaging(page, limit))
  {
  }

  /** The literal parts around the query's `*` in a search key: free of `*`
      and of regular-expression syntax when the query's parts are. */
  lemma SearchPartsLiteral(before: string, after: string, page: int, limit: int)
    requires '*' !in before && '*' !in after
    requires RegexLiteral(before) && RegexLiteral(after)
    ensures var prefix := "books:search:" + before;
      '*' !in prefix && RegexLiteral(prefix)
    ensures var suffix := after + ":" + RenderPaging(page, limit);
      '*' !in suffix && RegexLiteral(suffix)
  {
    var prefix, suffix := "books:search:" + before, after + ":" + RenderPaging(page, limit);
    forall i | 0 <= i < |prefix| ensures prefix[i] != '*' && prefix[i] !in RegexSyntax {
      if i >= 13 { assert prefix[i] == before[i - 13]; }
    }
    RenderPagingPlain(page, limit);
    forall i | 0 <= i < |suffix| ensures suffix[i] != '*' && suffix[i] !in RegexSyntax {
      if i < |after| { assert suffix[i] == after[i]; }
      else if i > |after| { assert suffix[i] == RenderPaging(page, limit)[i - |after| - 1]; }
    }
  }

  /** Genre normalisation in `createBook`: a falsy genre is dropped, an array
      is kept, any other value is wrapped in a one-element array. */
  function NormaliseGenre(genre: Json): (r: Json)
    ensures r == Undefined || r.Arr?
    ensures r == Undefined <==> !Truthy(genre)
    ensures r.Arr? && genre.Arr? ==> r == genre
    ensures r.Arr? && !genre.Arr? ==> r.items == [genre]
  {
    if !Truthy(genre) then Undefined
    else if genre.Arr? then genre
    else Arr([genre])
  }

  /** Normalising twice is normalising once. */
  lemma NormaliseGenreIdempotent(genre: Json)
    ensures NormaliseGenre(NormaliseGenre(genre)) == NormaliseGenre(genre)
  {
  }

  /** `{ $regex: author, $options: "i" }`. */
  datatype AuthorMatch = AuthorMatch(regex: string, options: string)

  /** The `BookFilter` of `getBooks`: each entry present or absent. */
  datatype BookFilter = BookFilter(author: Option<AuthorMatch>, genreIn: Option<seq<string>>)

  /** The filter built from the `author` and `genre` query strings (absent
      when the query lacks them). */
  function BuildFilter(author: Option<string>, genre: Option<string>): (f: BookFilter)
    ensures f.author.Some? <==> author.Some? && author.value != ""
    ensures f.author.Some? ==> f.author.value == AuthorMatch(author.value, "i")
    ensures f.genreIn.Some? <==> genre.Some? && genre.value != ""
    ensures f.genreIn.Some? ==> f.genreIn.value == [genre.value]
  {
    BookFilter(
      if author.Some? && author.value != "" then Some(AuthorMatch(author.value, "i")) else None,
      if genre.Some? && genre.value != "" then Some([genre.value]) else None)
  }

  /** What `getBooks` computes before touching the cache: the filter, the
      paging and the cache key; `stringify` stands for `JSON.stringify`. */
  datatype ListPlan = ListPlan(filter: BookFilter, paging: Paging, key: string)

  function GetBooksPlan(author: Option<string>, genre: Option<string>,
                        pageQuery: Option<int>, limitQuery: Option<int>,
                        stringify: BookFilter -> string): (r: ListPlan)
    ensures r.filter == BuildFilter(author, genre)
    ensures r.paging == Paginate(pageQuery, limitQuery)
    ensures r.key == ListKey(stringify(r.filter), r.paging.page, r.paging.limit)
  {
    var filter := BuildFilter(author, genre);
    var paging := Paginate(pageQuery, limitQuery);
    ListPlan(filter, paging, ListKey(stringify(filter), paging.page, paging.limit))
  }

  /** `searchBooks` up to the cache lookup: an empty or absent query is
      rejected with 400 before any key is built. */
  function SearchPlan(query: Option<string>, pageQuery: Option<int>, limitQuery: Option<int>)
    : (r: Result<(Paging, string), ErrorHandler.AppError>)
    ensures r.Failure? <==> query.None? || query.value == ""
    ensures r.Failure? ==> r.error == ErrorHandler.NewAppError("Search query is required", 400)
    ensures r.Success? ==> r.value.0 == Paginate(pageQuery, limitQuery)
    ensures r.Success? ==> r.value.1 == SearchKey(query.value, r.value.0.page, r.value.0.limit)
  {
    if query.None? || query.value == "" then
      Failure(ErrorHandler.NewAppError("Search query is required", 400))
    else
      var paging := Paginate(pageQuery, limitQuery);
      Success((paging, SearchKey(query.value, paging.page, paging.limit)))
  }

  // Hexadecimal ids in either case.

  function LowerHex(c: char): (r: char)
    ensures IsHexDigit(c) ==> IsHexDigit(r) && !('A' <= r <= 'F')
  {
    if 'A' <= c <= 'F' then (c as int + 32) as char else c
  }

  /** The id as `ObjectId.toString()` renders it: lower-case hexadecimal. */
  function LowerId(id: string): (r: string)
    ensures |r| == |id|
    ensures forall i :: 0 <= i < |id| ==> r[i] == LowerHex(id[i])
  {
    seq(|id|, i requires 0 <= i < |id| => LowerHex(id[i]))
  }

  lemma LowerIdIsHexId(id: string)
    requires IsHexId(id)
    ensures IsHexId(LowerId(id))
  {
  }

  /** As written: `getBookById` builds the reviews key from the id in the URL,
      which `ObjectId.isValid` accepts in upper case too, while the review
      controller's update and delete handlers invalidate with the stored id,
      rendered in lower case. A key built from an id with an upper-case digit
      survives that invalidation. */
  lemma UpperCaseKeySurvivesInvalidation(bookId: string, page: int, limit: int)
    requires IsHexId(bookId) && LowerId(bookId) != bookId
    ensures !GlobMatch(ReviewsPattern(LowerId(bookId)), ReviewsKey(bookId, page, limit))
  {
    LowerIdIsHexId(bookId);
    HexIdPlain(bookId);
    HexIdPlain(LowerId(bookId));
    InvalidationSparesOtherBooks(LowerId(bookId), bookId, page, limit);
  }

  /** An instance: the id of twenty-four `A`s. */
  lemma UpperCaseIdExample()
    ensures var id := seq(24, _ => 'A');
      IsHexId(id) && !GlobMatch(ReviewsPattern(LowerId(id)), ReviewsKey(id, 1, 10))
  {
    var id := seq(24, _ => 'A');
    assert LowerId(id)[0] == 'a';
    UpperCaseKeySurvivesInvalidation(id, 1, 10);
  }

  /** Corrected: the reviews key built from the canonical (lower-case) id. */
  function CanonicalReviewsKey(bookId: string, page: int, limit: int): string {
    ReviewsKey(LowerId(bookId), page, limit)
  }

  /** With canonical keys, invalidating with the stored id of a book removes
      the reviews keys of that book, however its id was spelled in the URL,
      and of no other book. */
  lemma CanonicalKeyInvalidation(storedId: string, urlId: string, page: int, limit: int)
    requires IsHexId(storedId) && IsHexId(urlId)
    ensures GlobMatch(ReviewsPattern(LowerId(storedId)), CanonicalReviewsKey(urlId, page, limit))
        <==> LowerId(storedId) == LowerId(urlId)
  {
    LowerIdIsHexId(storedId);
    LowerIdIsHexId(urlId);
    HexIdPlain(LowerId(storedId));
    HexIdPlain(LowerId(urlId));
    if LowerId(storedId) == LowerId(urlId) {
      InvalidationHitsOwnReviews(LowerId(urlId), page, limit);
    } else {
      InvalidationSparesOtherBooks(LowerId(storedId), LowerId(urlId), page, limit);
    }
  }

  /** `getBookById` up to the cache lookup: `idValid` is the verdict of
      `ObjectId.isValid` and `found` whether the book exists; the key is the
      canonical one. */
  function BookByIdPlan(bookId: string, idValid: bool, found: bool,
                        pageQuery: Option<int>, limitQuery: Option<int>)
    : (r: Result<(Paging, string), ErrorHandler.AppError>)
    ensures !idValid ==> r == Failure(ErrorHandler.NewAppError("Invalid book ID", 400))
    ensures idValid && !found ==> r == Failure(ErrorHandler.NewAppError("Book not found", 404))
    ensures r.Success? <==> idValid && found
    ensures r.Success? ==> r.value.0 == Paginate(pageQuery, limitQuery)
    ensures r.Success? ==> r.value.1 == CanonicalReviewsKey(bookId, r.value.0.page, r.value.0.limit)
  {
    if !idValid then Failure(ErrorHandler.NewAppError("Invalid book ID", 400))
    else if !found then Failure(ErrorHandler.NewAppError("Book not found", 404))
    else
      var paging := Paginate(pageQuery, limitQuery);
      Success((paging, CanonicalReviewsKey(bookId, paging.page, paging.limit)))
  }
}
