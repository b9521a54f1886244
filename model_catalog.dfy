/**
 * GeminiModelService: the list of models offered on the configuration page.
 * The model list is fetched page by page, filtered to the models that can
 * generate content, sorted by display name and kept in a file cache for an hour.
 * The HTTP replies, the clock, the key fingerprint (md5) and the sort order of
 * display names are inputs; the cache directory is a map from cache key to entry.
 */
module ModelCatalog {
  import opened Wrappers
  import opened PhpStrings

  /** One element of the `models` array of a reply, fields absent or null as None. */
  datatype ModelInfo = ModelInfo(
    supported: Option<seq<string>>,
    name: Option<string>,
    baseModelId: Option<string>,
    displayName: Option<string>)

  /**
   * The i-th reply of the paginated listing. `models` is None when the decoded body
   * holds no `models` array (including a body that is not JSON).
   */
  datatype Page = Page(
    curlError: string,
    httpCode: int,
    models: Option<seq<ModelInfo>>,
    nextPageToken: Option<string>)

  /** An insertion-ordered PHP array from model id to display name. */
  type Listing = seq<(string, string)>

  /** What the service returns: `['models' => ..., 'error' => ...]`. */
  datatype Catalog = Catalog(models: Listing, error: string)

  const RequiredMethod := "generateContent"
  const NoModelsMessage := "No models supporting generateContent were returned."
  const ErrorDetailCap := 200

  // ---------------------------------------------------------------------------
  // The ordered map

  /** `$listing[$k]`, or None when the key is unset. */
  function Find(l: Listing, k: string): (r: Option<string>)
    ensures r.Some? <==> exists i :: 0 <= i < |l| && l[i].0 == k
  {
    if l == [] then None else if l[0].0 == k then Some(l[0].1) else Find(l[1..], k)
  }

  predicate DistinctKeys(l: Listing) {
    forall i, j :: 0 <= i < j < |l| ==> l[i].0 != l[j].0
  }

  /**
   * `$listing[$k] = $v`: an existing key keeps its position and takes the new
   * value, a new key is appended.
   */
  function Put(l: Listing, k: string, v: string): (r: Listing)
    ensures Find(r, k) == Some(v)
    ensures forall k' :: k' != k ==> Find(r, k') == Find(l, k')
    ensures Find(l, k).None? ==> r == l + [(k, v)]
    ensures Find(l, k).Some? ==> |r| == |l| && forall i :: 0 <= i < |l| ==> r[i].0 == l[i].0
  {
    if l == [] then [(k, v)]
    else if l[0].0 == k then [(k, v)] + l[1..]
    else
      var r := [l[0]] + Put(l[1..], k, v);
      assert Find(r, l[0].0) == Some(l[0].1);
      r
  }

  /** Assigning a key keeps the keys of a listing distinct. */
  lemma PutDistinct(l: Listing, k: string, v: string)
    requires DistinctKeys(l)
    ensures DistinctKeys(Put(l, k, v))
  {
    var r := Put(l, k, v);
    if Find(l, k).None? {
      forall i, j | 0 <= i < j < |r| ensures r[i].0 != r[j].0 {
        if j == |l| {
          assert r[i] == l[i];
        }
      }
    }
  }

  // ---------------------------------------------------------------------------
  // Filtering one page

  /** The strict `in_array('generateContent', $supported ?? [], true)`. */
  predicate Supports(m: ModelInfo) {
    m.supported.Some? && RequiredMethod in m.supported.value
  }

  predicate Truthy(o: Option<string>) {
    o.Some? && !IsEmptyString(o.value)
  }

  /** The key a model is stored under: its name if truthy, else its base id if truthy. */
  function KeyOf(m: ModelInfo): (r: Option<string>)
    ensures r.Some? ==> !IsEmptyString(r.value)
    ensures r.None? <==> !Truthy(m.name) && !Truthy(m.baseModelId)
    ensures Truthy(m.name) ==> r == m.name
    ensures !Truthy(m.name) && Truthy(m.baseModelId) ==> r == m.baseModelId
  {
    if Truthy(m.name) then m.name else if Truthy(m.baseModelId) then m.baseModelId else None
  }

  /** `displayName ?? baseModelId ?? name`; a kept model always has one of them. */
  function DisplayOf(m: ModelInfo): string {
    if m.displayName.Some? then m.displayName.value
    else if m.baseModelId.Some? then m.baseModelId.value
    else m.name.GetOr("")
  }

  predicate Kept(m: ModelInfo) {
    Supports(m) && KeyOf(m).Some?
  }

  /** One pass of the foreach body. */
  function AddModel(acc: Listing, m: ModelInfo): (r: Listing)
    ensures !Kept(m) ==> r == acc
    ensures Kept(m) ==> Find(r, KeyOf(m).value) == Some(DisplayOf(m))
    ensures Kept(m) ==> forall k :: k != KeyOf(m).value ==> Find(r, k) == Find(acc, k)
    ensures DistinctKeys(acc) ==> DistinctKeys(r)
  {
    if Kept(m) then
      if DistinctKeys(acc) then PutDistinct(acc, KeyOf(m).value, DisplayOf(m)); Put(acc, KeyOf(m).value, DisplayOf(m))
      else Put(acc, KeyOf(m).value, DisplayOf(m))
    else acc
  }

  /** The foreach over one page's models, folded from the back. */
  function AddModels(acc: Listing, ms: seq<ModelInfo>): (r: Listing)
    ensures DistinctKeys(acc) ==> DistinctKeys(r)
  {
    if ms == [] then acc else AddModel(AddModels(acc, ms[..|ms| - 1]), ms[|ms| - 1])
  }

  /** A key is in the listing after a page iff it was before or some kept model carries it. */
  lemma {:induction false} AddModelsKeys(acc: Listing, ms: seq<ModelInfo>, k: string)
    ensures Find(AddModels(acc, ms), k).Some? <==>
      Find(acc, k).Some? || exists i :: 0 <= i < |ms| && Kept(ms[i]) && KeyOf(ms[i]) == Some(k)
  {
    if ms != [] {
      var front := ms[..|ms| - 1];
      AddModelsKeys(acc, front, k);
      if exists i :: 0 <= i < |ms| && Kept(ms[i]) && KeyOf(ms[i]) == Some(k) {
        var i :| 0 <= i < |ms| && Kept(ms[i]) && KeyOf(ms[i]) == Some(k);
        if i < |ms| - 1 {
          assert front[i] == ms[i];
        }
      }
      if exists i :: 0 <= i < |front| && Kept(front[i]) && KeyOf(front[i]) == Some(k) {
        var i :| 0 <= i < |front| && Kept(front[i]) && KeyOf(front[i]) == Some(k);
        assert ms[i] == front[i];
      }
    }
  }

  /** The display name stored under a key is the one of the last kept model carrying it. */
  lemma {:induction false} LastModelWins(acc: Listing, ms: seq<ModelInfo>, i: nat)
    requires i < |ms| && Kept(ms[i])
    requires forall j :: i < j < |ms| ==> !Kept(ms[j]) || KeyOf(ms[j]) != KeyOf(ms[i])
    ensures Find(AddModels(acc, ms), KeyOf(ms[i]).value) == Some(DisplayOf(ms[i]))
  {
    if i < |ms| - 1 {
      var front := ms[..|ms| - 1];
      assert front[i] == ms[i];
      LastModelWins(acc, front, i);
    }
  }

  // ---------------------------------------------------------------------------
  // Pagination

  /** A transport error or a status other than 200 ends the listing with an error. */
  predicate Failed(p: Page) {
    !IsEmptyString(p.curlError) || p.httpCode != 200
  }

  /** The do…while condition fails: the token is null, "" or "0". */
  predicate NoMorePages(p: Page) {
    p.nextPageToken.None? || IsEmptyString(p.nextPageToken.value)
  }

  predicate Last(p: Page) {
    Failed(p) || NoMorePages(p)
  }

  /** Some reply ends the listing, so the loop stops within the given pages. */
  predicate Terminates(pages: seq<Page>) {
    exists i :: 0 <= i < |pages| && Last(pages[i])
  }

  const FetchErrorPrefix := "Unable to fetch models list (HTTP "

  /**
   * The message for a failed page: the status in decimal, then, when curl reported an
   * error, " - " and at most 200 characters of it, then a period.
   */
  function FetchError(p: Page): (r: string)
    ensures var status := FetchErrorPrefix + IntToDecimal(p.httpCode) + ")";
            && status <= r && r[|r| - 1] == '.'
            && (IsEmptyString(p.curlError) <==> r == status + ".")
            && (!IsEmptyString(p.curlError) ==>
                  && |status| + 4 <= |r|
                  && var detail := r[|status| + 3..|r| - 1];
                  && r[|status|..|status| + 3] == " - " && detail <= p.curlError
                  && |detail| == if |p.curlError| <= ErrorDetailCap then |p.curlError| else ErrorDetailCap)
  {
    var status := FetchErrorPrefix + IntToDecimal(p.httpCode) + ")";
    if IsEmptyString(p.curlError) then status + "."
    else
      var detail := Prefix(p.curlError, ErrorDetailCap);
      var r := status + " - " + detail + ".";
      assert r[|status| + 3..|r| - 1] == detail;
      r
  }

  /**
   * The listing and error after the remaining pages, starting from `acc`.
   * Running out of pages is treated as a final page (see Terminates).
   */
  function Gather(pages: seq<Page>, acc: Listing): (r: (Listing, string))
    decreases |pages|
  {
    if pages == [] then (acc, "")
    else if Failed(pages[0]) then (acc, FetchError(pages[0]))
    else
      var next := AddModels(acc, pages[0].models.GetOr([]));
      if NoMorePages(pages[0]) then (next, "") else Gather(pages[1..], next)
  }

  /** Models gathered before a failing page are kept, and the error is that page's. */
  lemma {:induction false} GatherKeepsEarlierModels(pages: seq<Page>, acc: Listing, k: string)
    requires Find(acc, k).Some?
    ensures Find(Gather(pages, acc).0, k).Some?
  {
    if pages != [] && !Failed(pages[0]) {
      var ms := pages[0].models.GetOr([]);
      AddModelsKeys(acc, ms, k);
      GatherKeepsEarlierModels(pages[1..], AddModels(acc, ms), k);
    }
  }

  /** The error is either empty or the message built from a failing page. */
  lemma {:induction false} GatherError(pages: seq<Page>, acc: Listing)
    ensures var e := Gather(pages, acc).1;
      e == "" || exists i :: 0 <= i < |pages| && Failed(pages[i]) && e == FetchError(pages[i])
    ensures (forall i :: 0 <= i < |pages| ==> !Failed(pages[i])) ==> Gather(pages, acc).1 == ""
  {
    if pages != [] && !Failed(pages[0]) && !NoMorePages(pages[0]) {
      var next := AddModels(acc, pages[0].models.GetOr([]));
      GatherError(pages[1..], next);
      var e := Gather(pages[1..], next).1;
      if e != "" {
        var i :| 0 <= i < |pages[1..]| && Failed(pages[1..][i]) && e == FetchError(pages[1..][i]);
        assert pages[i + 1] == pages[1..][i];
      }
    }
  }

  /** Every listed model came from a reply and can generate content. */
  lemma {:induction false} GatherOnlySupported(pages: seq<Page>, acc: Listing, k: string)
    requires Find(Gather(pages, acc).0, k).Some?
    ensures Find(acc, k).Some? || exists i, j ::
      0 <= i < |pages| && pages[i].models.Some? && 0 <= j < |pages[i].models.value| &&
      Supports(pages[i].models.value[j]) && KeyOf(pages[i].models.value[j]) == Some(k)
  {
    if pages != [] && !Failed(pages[0]) {
      var ms := pages[0].models.GetOr([]);
      var next := AddModels(acc, ms);
      if !NoMorePages(pages[0]) {
        GatherOnlySupported(pages[1..], next, k);
        if !(Find(next, k).Some?) {
          var i, j :| 0 <= i < |pages[1..]| && pages[1..][i].models.Some? &&
            0 <= j < |pages[1..][i].models.value| &&
            Supports(pages[1..][i].models.value[j]) && KeyOf(pages[1..][i].models.value[j]) == Some(k);
          assert pages[i + 1] == pages[1..][i];
        }
      }
      AddModelsKeys(acc, ms, k);
      if Find(next, k).Some? && Find(acc, k).None? {
        var j :| 0 <= j < |ms| && Kept(ms[j]) && KeyOf(ms[j]) == Some(k);
        assert pages[0].models.Some?;
      }
    }
  }

  // ---------------------------------------------------------------------------
  // Sorting by display name (asort keeps each key with its display name)

  /** The display-name order used by `asort`, given as a comparator. */
  type Order = (string, string) -> bool

  ghost predicate TotalPreorder(le: Order) {
    (forall a, b :: le(a, b) || le(b, a)) &&
    (forall a, b, c :: le(a, b) && le(b, c) ==> le(a, c))
  }

  predicate SortedByDisplay(l: Listing, le: Order) {
    forall i, j :: 0 <= i < j < |l| ==> le(l[i].1, l[j].1)
  }

  /** Place `x` after every entry that does not sort after it. */
  function Insert(x: (string, string), s: Listing, le: Order): (r: Listing)
    ensures multiset(r) == multiset(s) + multiset{x}
  {
    if s == [] then [x]
    else if le(s[0].1, x.1) then
      assert s == [s[0]] + s[1..];
      [s[0]] + Insert(x, s[1..], le)
    else [x] + s
  }

  /** asort: the same entries, so each id stays paired with its display name. */
  function SortByDisplay(l: Listing, le: Order): (r: Listing)
    ensures multiset(r) == multiset(l)
  {
    if l == [] then []
    else
      var front := l[..|l| - 1];
      assert l == front + [l[|l| - 1]];
      Insert(l[|l| - 1], SortByDisplay(front, le), le)
  }

  lemma {:induction false} InsertKeys(x: (string, string), s: Listing, le: Order)
    ensures forall k :: Find(Insert(x, s, le), k).Some? <==> (Find(s, k).Some? || k == x.0)
    ensures DistinctKeys(s) && Find(s, x.0).None? ==> DistinctKeys(Insert(x, s, le))
  {
    if s != [] && le(s[0].1, x.1) {
      InsertKeys(x, s[1..], le);
      var r := Insert(x, s, le);
      forall k
        ensures Find(r, k).Some? <==> (Find(s, k).Some? || k == x.0)
      {
        assert Find(r, k) == if s[0].0 == k then Some(s[0].1) else Find(Insert(x, s[1..], le), k);
        assert Find(s, k) == if s[0].0 == k then Some(s[0].1) else Find(s[1..], k);
      }
      if DistinctKeys(s) && Find(s, x.0).None? {
        assert DistinctKeys(s[1..]);
        assert Find(s[1..], x.0).None?;
        var t := Insert(x, s[1..], le);
        forall j | 0 < j < |r|
          ensures r[0].0 != r[j].0
        {
          assert r[j] == t[j - 1];
          assert Find(t, r[j].0).Some?;
          if Find(s[1..], r[j].0).Some? {
            var q :| 0 <= q < |s[1..]| && s[1..][q].0 == r[j].0;
            assert s[q + 1].0 == r[j].0;
          }
        }
      }
    }
  }

  /** A lower bound of `x` and of every entry of `s` bounds every entry after the insertion. */
  lemma {:induction false} InsertBounded(x: (string, string), s: Listing, le: Order, low: string)
    requires le(low, x.1) && forall i :: 0 <= i < |s| ==> le(low, s[i].1)
    ensures forall i :: 0 <= i < |Insert(x, s, le)| ==> le(low, Insert(x, s, le)[i].1)
  {
    if s != [] && le(s[0].1, x.1) {
      InsertBounded(x, s[1..], le, low);
      var t := Insert(x, s[1..], le);
      assert Insert(x, s, le) == [s[0]] + t;
      assert forall i :: 1 <= i < |t| + 1 ==> ([s[0]] + t)[i] == t[i - 1];
    }
  }

  lemma {:induction false} InsertSorted(x: (string, string), s: Listing, le: Order)
    requires TotalPreorder(le) && SortedByDisplay(s, le)
    ensures SortedByDisplay(Insert(x, s, le), le)
  {
    if s != [] {
      if le(s[0].1, x.1) {
        var t := Insert(x, s[1..], le);
        InsertSorted(x, s[1..], le);
        InsertBounded(x, s[1..], le, s[0].1);
        var r := [s[0]] + t;
        forall i, j | 0 <= i < j < |r|
          ensures le(r[i].1, r[j].1)
        {
          assert r[j] == t[j - 1];
          if i > 0 {
            assert r[i] == t[i - 1];
          }
        }
      } else {
        assert le(x.1, s[0].1);
        forall j | 0 <= j < |s|
          ensures le(x.1, s[j].1)
        {
          if j > 0 {
            assert le(s[0].1, s[j].1);
          }
        }
        var r := [x] + s;
        forall i, j | 0 <= i < j < |r|
          ensures le(r[i].1, r[j].1)
        {
          assert r[j] == s[j - 1];
          if i > 0 {
            assert r[i] == s[i - 1];
          }
        }
      }
    }
  }

  /** `asort` leaves the listing ordered by display name, with the same entries. */
  lemma {:induction false} SortByDisplaySorted(l: Listing, le: Order)
    requires TotalPreorder(le)
    ensures SortedByDisplay(SortByDisplay(l, le), le)
  {
    if l != [] {
      SortByDisplaySorted(l[..|l| - 1], le);
      InsertSorted(l[|l| - 1], SortByDisplay(l[..|l| - 1], le), le);
    }
  }

  /** Two listings with the same entries have the same ids. */
  lemma SameEntriesSameKeys(a: Listing, b: Listing, k: string)
    requires multiset(a) == multiset(b)
    ensures Find(a, k).Some? <==> Find(b, k).Some?
  {
    if Find(a, k).Some? {
      var i :| 0 <= i < |a| && a[i].0 == k;
      assert a[i] in multiset(b);
      var j :| 0 <= j < |b| && b[j] == a[i];
    }
    if Find(b, k).Some? {
      var j :| 0 <= j < |b| && b[j].0 == k;
      assert b[j] in multiset(a);
      var i :| 0 <= i < |a| && a[i] == b[j];
    }
  }

  /** Sorting keeps the set of ids. */
  lemma SortByDisplayKeys(l: Listing, le: Order, k: string)
    ensures Find(SortByDisplay(l, le), k).Some? <==> Find(l, k).Some?
  {
    SameEntriesSameKeys(l, SortByDisplay(l, le), k);
  }

  /** Each id is still listed once after sorting. */
  lemma {:induction false} SortByDisplayDistinct(l: Listing, le: Order)
    requires DistinctKeys(l)
    ensures DistinctKeys(SortByDisplay(l, le))
  {
    if l != [] {
      var front := l[..|l| - 1];
      var x := l[|l| - 1];
      assert DistinctKeys(front);
      SortByDisplayDistinct(front, le);
      SortByDisplayKeys(front, le, x.0);
      InsertKeys(x, SortByDisplay(front, le), le);
      assert forall i :: 0 <= i < |front| ==> front[i].0 != x.0 by {
        forall i | 0 <= i < |front|
          ensures front[i].0 != x.0
        {
          assert front[i] == l[i];
        }
      }
    }
  }

  // ---------------------------------------------------------------------------
  // fetchModelsFromAPI

  /** The result of fetchModelsFromAPI for the given replies. */
  function Fetch(pages: seq<Page>, le: Order): (r: Catalog)
    ensures |r.models| == |Gather(pages, []).0|
    ensures |r.models| == 0 ==> r.error != ""
    ensures |r.models| == 0 && Gather(pages, []).1 == "" ==> r.error == NoModelsMessage
    ensures |r.models| == 0 && Gather(pages, []).1 != "" ==> r.error == Gather(pages, []).1
    ensures |r.models| != 0 ==> r.error == Gather(pages, []).1
  {
    var (models, error) := Gather(pages, []);
    if |models| == 0 then Catalog([], if error == "" then NoModelsMessage else error)
    else
      assert |multiset(SortByDisplay(models, le))| == |multiset(models)|;
      Catalog(SortByDisplay(models, le), error)
  }

  /** The catalog lists each model id once, sorted, and every listed id came from a reply. */
  lemma FetchShape(pages: seq<Page>, le: Order, k: string)
    requires TotalPreorder(le)
    ensures DistinctKeys(Fetch(pages, le).models)
    ensures SortedByDisplay(Fetch(pages, le).models, le)
    ensures Find(Fetch(pages, le).models, k).Some? ==> exists i, j ::
      0 <= i < |pages| && pages[i].models.Some? && 0 <= j < |pages[i].models.value| &&
      Supports(pages[i].models.value[j]) && KeyOf(pages[i].models.value[j]) == Some(k)
  {
    var (models, error) := Gather(pages, []);
    GatherDistinct(pages, []);
    if |models| != 0 {
      SortByDisplaySorted(models, le);
      SortByDisplayKeys(models, le, k);
      SortByDisplayDistinct(models, le);
      if Find(SortByDisplay(models, le), k).Some? {
        GatherOnlySupported(pages, [], k);
      }
    }
  }

  lemma {:induction false} GatherDistinct(pages: seq<Page>, acc: Listing)
    requires DistinctKeys(acc)
    ensures DistinctKeys(Gather(pages, acc).0)
  {
    if pages != [] && !Failed(pages[0]) && !NoMorePages(pages[0]) {
      GatherDistinct(pages[1..], AddModels(acc, pages[0].models.GetOr([])));
    }
  }

  /** The foreach over one page's models. */
  method AddPageModels(start: Listing, ms: seq<ModelInfo>) returns (models: Listing)
    ensures models == AddModels(start, ms)
  {
    models := start;
    for j := 0 to |ms|
      invariant models == AddModels(start, ms[..j])
    {
      assert ms[..j + 1][..j] == ms[..j];
      models := AddModel(models, ms[j]);
    }
    assert ms[..|ms|] == ms;
  }

  /** One successful page: its models are added and the listing goes on with the next reply. */
  lemma GatherStep(pages: seq<Page>, i: nat, models: Listing)
    requires i < |pages| && !Failed(pages[i]) && !NoMorePages(pages[i])
    ensures Gather(pages[i..], models)
            == Gather(pages[i + 1..], AddModels(models, pages[i].models.GetOr([])))
  {
    assert pages[i..][1..] == pages[i + 1..];
  }

  /**
   * The do…while over the replies, with the foreach over each page's models inside;
   * then the empty-listing message or the sort.
   */
  method FetchModels(pages: seq<Page>, le: Order) returns (r: Catalog)
    requires Terminates(pages)
    ensures r == Fetch(pages, le)
  {
    var models: Listing := [];
    var error := "";
    var i := 0;
    while true
      invariant 0 <= i < |pages|
      invariant exists j :: i <= j < |pages| && Last(pages[j])
      invariant Gather(pages[i..], models) == Gather(pages, [])
      decreases |pages| - i
    {
      var page := pages[i];
      if Failed(page) {
        error := FetchError(page);
        break;
      }
      var next := AddPageModels(models, page.models.GetOr([]));
      if NoMorePages(page) {
        models := next;
        break;
      }
      GatherStep(pages, i, models);
      models := next;
      i := i + 1;
    }
    assert (models, error) == Gather(pages, []);
    if |models| == 0 {
      if error == "" {
        error := NoModelsMessage;
      }
      r := Catalog([], error);
    } else {
      r := Catalog(SortByDisplay(models, le), error);
    }
  }

  // ---------------------------------------------------------------------------
  // The cache and getModels

  const CacheTtl := 3600
  const CacheKeyPrefix := "gemini_models_"

  /**
   * A cache file: Unreadable when it cannot be read or does not decode to an array;
   * otherwise its `timestamp` and `data` members, None when unset or null.
   */
  datatype CacheEntry = Unreadable | Stored(timestamp: Option<int>, data: Option<Catalog>)

  type Store = map<string, CacheEntry>

  /** The md5 of the API key, as a function. */
  type Fingerprint = string -> string

  function CacheKey(fingerprint: Fingerprint, apiKey: string): (r: string)
    ensures CacheKeyPrefix <= r
  {
    CacheKeyPrefix + fingerprint(apiKey)
  }

  predicate Complete(e: CacheEntry) {
    e.Stored? && e.timestamp.Some? && e.data.Some?
  }

  predicate Expired(e: CacheEntry, now: int)
    requires Complete(e)
  {
    now - e.timestamp.value > CacheTtl
  }

  /** getFromCache: the data of a complete, unexpired entry; an expired one is deleted. */
  function CachedRead(files: Store, key: string, now: int): (r: (Option<Catalog>, Store))
    ensures r.0.Some? <==> key in files && Complete(files[key]) && now - files[key].timestamp.value <= CacheTtl
    ensures r.0.Some? ==> r.0 == files[key].data && r.1 == files
    ensures r.0.None? && key in files && Complete(files[key]) ==> r.1 == files - {key}
    ensures r.0.None? && !(key in files && Complete(files[key])) ==> r.1 == files
  {
    if key !in files || !Complete(files[key]) then (None, files)
    else if Expired(files[key], now) then (None, files - {key})
    else (files[key].data, files)
  }

  /** setCache: the entry under `key` becomes `{timestamp: now, data}`. */
  function CacheWrite(files: Store, key: string, now: int, data: Catalog): Store {
    files[key := Stored(Some(now), Some(data))]
  }

  /** The outcome of getModels: the catalog, the cache afterwards, and whether it fetched. */
  datatype Lookup = Lookup(catalog: Catalog, files: Store, fetched: bool)

  function GetModelsOf(files: Store, fingerprint: Fingerprint, apiKey: string, now: int,
                       pages: seq<Page>, le: Order): Lookup
  {
    if IsEmptyString(apiKey) then Lookup(Catalog([], ""), files, false)
    else
      var key := CacheKey(fingerprint, apiKey);
      var (cached, files') := CachedRead(files, key, now);
      if cached.Some? then Lookup(cached.value, files', false)
      else
        var result := Fetch(pages, le);
        Lookup(result, CacheWrite(files', key, now, result), true)
  }

  /** An empty key yields no models and no error, touching neither the cache nor the API. */
  lemma EmptyKeyShortCircuits(files: Store, fingerprint: Fingerprint, apiKey: string, now: int,
                              pages: seq<Page>, le: Order)
    requires IsEmptyString(apiKey)
    ensures GetModelsOf(files, fingerprint, apiKey, now, pages, le) == Lookup(Catalog([], ""), files, false)
  {
  }

  /** A fresh complete entry is returned verbatim and nothing is fetched or written. */
  lemma CacheHit(files: Store, fingerprint: Fingerprint, apiKey: string, now: int,
                 pages: seq<Page>, le: Order)
    requires !IsEmptyString(apiKey)
    requires var key := CacheKey(fingerprint, apiKey);
      key in files && Complete(files[key]) && now - files[key].timestamp.value <= CacheTtl
    ensures var out := GetModelsOf(files, fingerprint, apiKey, now, pages, le);
      !out.fetched && out.files == files && out.catalog == files[CacheKey(fingerprint, apiKey)].data.value
  {
  }

  /**
   * Otherwise the models are fetched and the result, models or error, is stored under
   * the key with the current time; no other entry changes except a deleted stale one.
   */
  lemma CacheMissStores(files: Store, fingerprint: Fingerprint, apiKey: string, now: int,
                        pages: seq<Page>, le: Order)
    requires !IsEmptyString(apiKey)
    requires var key := CacheKey(fingerprint, apiKey);
      !(key in files && Complete(files[key]) && now - files[key].timestamp.value <= CacheTtl)
    ensures var out := GetModelsOf(files, fingerprint, apiKey, now, pages, le);
      var key := CacheKey(fingerprint, apiKey);
      out.fetched && out.catalog == Fetch(pages, le) &&
      out.files == files[key := Stored(Some(now), Some(Fetch(pages, le)))]
  {
  }

  /** Within an hour of a fetch, the same key is answered from the cache with the same data. */
  lemma {:induction false} StoredThenHit(files: Store, fingerprint: Fingerprint, apiKey: string,
                                          now: int, later: int, pages: seq<Page>, pages': seq<Page>,
                                          le: Order)
    requires !IsEmptyString(apiKey)
    requires GetModelsOf(files, fingerprint, apiKey, now, pages, le).fetched
    requires later - now <= CacheTtl
    ensures var first := GetModelsOf(files, fingerprint, apiKey, now, pages, le);
      var second := GetModelsOf(first.files, fingerprint, apiKey, later, pages', le);
      !second.fetched && second.catalog == first.catalog && second.files == first.files
  {
    var key := CacheKey(fingerprint, apiKey);
    var first := GetModelsOf(files, fingerprint, apiKey, now, pages, le);
    CacheMissStores(files, fingerprint, apiKey, now, pages, le);
    assert first.files[key] == Stored(Some(now), Some(first.catalog));
    CacheHit(first.files, fingerprint, apiKey, later, pages', le);
  }

  /** A cache file is a directory of entries that getModels reads, deletes and writes. */
  class ModelCache {
    var files: Store
    const fingerprint: Fingerprint

    constructor (fingerprint: Fingerprint)
      ensures files == map[] && this.fingerprint == fingerprint
    {
      files := map[];
      this.fingerprint := fingerprint;
    }

    method GetFromCache(key: string, now: int) returns (data: Option<Catalog>)
      modifies this
      ensures (data, files) == CachedRead(old(files), key, now)
    {
      if key !in files {
        return None;
      }
      var entry := files[key];
      if !Complete(entry) {
        return None;
      }
      if now - entry.timestamp.value > CacheTtl {
        files := files - {key};
        return None;
      }
      data := entry.data;
    }

    method SetCache(key: string, now: int, data: Catalog)
      modifies this
      ensures files == CacheWrite(old(files), key, now, data)
    {
      files := files[key := Stored(Some(now), Some(data))];
    }

    method GetModels(apiKey: string, now: int, pages: seq<Page>, le: Order)
      returns (r: Catalog, fetched: bool)
      requires Terminates(pages)
      modifies this
      ensures Lookup(r, files, fetched) == GetModelsOf(old(files), fingerprint, apiKey, now, pages, le)
    {
      if IsEmptyString(apiKey) {
        return Catalog([], ""), false;
      }
      var key := CacheKey(fingerprint, apiKey);
      var cached := GetFromCache(key, now);
      if cached.Some? {
        return cached.value, false;
      }
      r := FetchModels(pages, le);
      SetCache(key, now, r);
      fetched := true;
    }
  }
}
