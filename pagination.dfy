/** The offset-paginated listing loops of `get_ONS_datasets_titles_descriptions` and
    `get_ONS_datasets_urls`. Each request's decoded response is an input: the k-th element
    of `rs` is what the k-th request of the loop received. */
module Pagination {
  import opened Outcomes
  import opened PyText

  /** `max = 500`: the ceiling on the accumulated list, checked only at the loop head. */
  const Max := 500

  /** The status the connectivity probe must report. */
  const HttpOk := 200

  /** `links.latest_version.href` of a listing item, as far as it exists. */
  datatype LinkPath = NoLinks | NoLatestVersion | LatestVersion(href: Option<string>)

  /** One entry of a page's `items`, reduced to the fields the two loops read. */
  datatype Item = Item(title: Option<string>, description: Option<string>, links: LinkPath)

  /** One response of the listing endpoint: `.json()` failed, or it gave `items` and `count`. */
  datatype Response = DecodeError | Page(items: seq<Item>, count: int)

  /** The two loops differ only in the item fields they read. */
  datatype Variant = TitlesAndDescriptions | Urls

  /** The first component `get_ONS_datasets_titles_descriptions` returns: the list of
      titles, or the text `"Error: <status>"` when the probe fails. */
  datatype Titles = TitleList(titles: seq<string>) | ErrorText(message: string)

  function ItemsOf(r: Response): seq<Item> {
    if r.Page? then r.items else []
  }

  function CountOf(r: Response): int {
    if r.Page? then r.count else 0
  }

  /** The items of every response among the first `k` that decoded, in the order received. */
  function Decoded(rs: seq<Response>, k: nat): seq<Item>
    requires k <= |rs|
  {
    if k == 0 then [] else Decoded(rs, k - 1) + ItemsOf(rs[k - 1])
  }

  /** The sum of `count` over every response among the first `k` that decoded. */
  function CountSum(rs: seq<Response>, k: nat): int
    requires k <= |rs|
  {
    if k == 0 then 0 else CountSum(rs, k - 1) + CountOf(rs[k - 1])
  }

  /** The item has every field the variant reads with `[...]` or a `.get` chain. */
  predicate ItemReadable(v: Variant, it: Item) {
    match v
    case TitlesAndDescriptions => it.title.Some? && it.description.Some?
    case Urls => it.links.LatestVersion?
  }

  /** A decoded page holding an item whose fields cannot be read: the loop raises on it. */
  predicate Unreadable(v: Variant, r: Response) {
    r.Page? && exists i :: 0 <= i < |r.items| && !ItemReadable(v, r.items[i])
  }

  /** A decoded page reporting `count == 0`: the loop breaks after it. */
  predicate ZeroPage(r: Response) {
    r.Page? && r.count == 0
  }

  /** After the first `k` responses the loop has ended by itself: the accumulated list has
      reached the ceiling, or the last response was a zero-count page or raised. */
  predicate Ended(v: Variant, rs: seq<Response>, k: nat)
    requires k <= |rs|
  {
    |Decoded(rs, k)| >= Max || (k > 0 && (ZeroPage(rs[k - 1]) || Unreadable(v, rs[k - 1])))
  }

  /** After the first `k` responses no further request is sent, because the loop has ended
      or the given responses are used up. */
  predicate StopsAt(v: Variant, rs: seq<Response>, k: nat)
    requires k <= |rs|
  {
    k == |rs| || Ended(v, rs, k)
  }

  /** `k` is the number of requests the loop sends: the first point at which it stops. */
  predicate FirstStop(v: Variant, rs: seq<Response>, k: nat) {
    k <= |rs| && StopsAt(v, rs, k) && forall j :: 0 <= j < k ==> !StopsAt(v, rs, j)
  }

  /** Request `j` asks for the offset that the counts of the pages decoded before it add up to. */
  predicate OffsetsFollowCounts(rs: seq<Response>, offsets: seq<int>)
    requires |offsets| <= |rs|
  {
    forall j :: 0 <= j < |offsets| ==> offsets[j] == CountSum(rs, j)
  }

  /** Titles and descriptions are the items' fields, one of each per item, in item order. */
  predicate TitlesFrom(titles: seq<string>, descriptions: seq<string>, items: seq<Item>) {
    && |titles| == |items|
    && |descriptions| == |items|
    && forall i :: 0 <= i < |items| ==>
         items[i].title == Some(titles[i]) && items[i].description == Some(descriptions[i])
  }

  /** The URLs are the items' `links.latest_version.href`, `None` where `href` is missing. */
  predicate UrlsFrom(urls: seq<Option<string>>, items: seq<Item>) {
    |urls| == |items| && forall i :: 0 <= i < |items| ==> items[i].links == LatestVersion(urls[i])
  }

  /** The loop-head state after the requests `offsets`, `offset` being the next offset:
      the offsets followed the counts, no earlier point was a stop point, and the last
      response neither ended the loop nor raised. */
  ghost predicate Progress(v: Variant, rs: seq<Response>, offsets: seq<int>, offset: int) {
    && |offsets| <= |rs|
    && OffsetsFollowCounts(rs, offsets)
    && (forall j :: 0 <= j < |offsets| ==> !StopsAt(v, rs, j))
    && (|offsets| > 0 ==> !ZeroPage(rs[|offsets| - 1]) && !Unreadable(v, rs[|offsets| - 1]))
    && offset == CountSum(rs, |offsets|)
  }

  lemma ProgressStart(v: Variant, rs: seq<Response>)
    ensures Progress(v, rs, [], 0)
  {
  }

  /** The point after the requests made so far is not a stop point, so one more request is sent. */
  lemma ProgressContinues(v: Variant, rs: seq<Response>, offsets: seq<int>, offset: int)
    requires Progress(v, rs, offsets, offset)
    requires |offsets| < |rs| && |Decoded(rs, |offsets|)| < Max
    ensures !StopsAt(v, rs, |offsets|)
    ensures OffsetsFollowCounts(rs, offsets + [offset])
  {
  }

  /** A decode failure or a full, readable page brings the loop back to its head. */
  lemma ProgressSteps(v: Variant, rs: seq<Response>, offsets: seq<int>, offset: int)
    requires Progress(v, rs, offsets, offset)
    requires |offsets| < |rs| && |Decoded(rs, |offsets|)| < Max
    requires var r := rs[|offsets|]; r.DecodeError? || (!ZeroPage(r) && !Unreadable(v, r))
    ensures Progress(v, rs, offsets + [offset], offset + CountOf(rs[|offsets|]))
    ensures Decoded(rs, |offsets| + 1) == Decoded(rs, |offsets|) + ItemsOf(rs[|offsets|])
  {
    var k := |offsets|;
    var next := offsets + [offset];
    ProgressContinues(v, rs, offsets, offset);
    forall j | 0 <= j < k + 1
      ensures !StopsAt(v, rs, j)
    {
      if j < k {
        assert !StopsAt(v, rs, j);
      }
    }
    assert CountSum(rs, k + 1) == offset + CountOf(rs[k]);
  }

  /** A zero-count or raising page is the first stop point. */
  lemma ProgressEnds(v: Variant, rs: seq<Response>, offsets: seq<int>, offset: int)
    requires Progress(v, rs, offsets, offset)
    requires |offsets| < |rs| && |Decoded(rs, |offsets|)| < Max
    requires ZeroPage(rs[|offsets|]) || Unreadable(v, rs[|offsets|])
    ensures FirstStop(v, rs, |offsets| + 1) && Ended(v, rs, |offsets| + 1)
    ensures OffsetsFollowCounts(rs, offsets + [offset])
    ensures Decoded(rs, |offsets| + 1) == Decoded(rs, |offsets|) + ItemsOf(rs[|offsets|])
  {
    ProgressContinues(v, rs, offsets, offset);
  }

  /** At the loop head the run stops when the list reached the ceiling or the responses are
      used up; the second without the first means more input is needed. */
  lemma ProgressHalts(v: Variant, rs: seq<Response>, offsets: seq<int>, offset: int)
    requires Progress(v, rs, offsets, offset)
    requires |offsets| == |rs| || |Decoded(rs, |offsets|)| >= Max
    ensures FirstStop(v, rs, |offsets|)
    ensures Ended(v, rs, |offsets|) <==> |Decoded(rs, |offsets|)| >= Max
  {
  }

  /** The inner `for data in r` loop of `get_ONS_datasets_titles_descriptions`: appends each
      item's title and description; `ok` is false when an item lacks one (`data[...]` raises). */
  method AppendTitles(titles: seq<string>, descriptions: seq<string>, items: seq<Item>,
                      ghost before: seq<Item>)
    returns (ok: bool, titles': seq<string>, descriptions': seq<string>)
    requires TitlesFrom(titles, descriptions, before)
    ensures ok <==> forall m :: 0 <= m < |items| ==> ItemReadable(TitlesAndDescriptions, items[m])
    ensures ok ==> TitlesFrom(titles', descriptions', before + items)
  {
    titles', descriptions' := titles, descriptions;
    for i := 0 to |items|
      invariant TitlesFrom(titles', descriptions', before + items[..i])
      invariant forall m :: 0 <= m < i ==> ItemReadable(TitlesAndDescriptions, items[m])
    {
      if items[i].title.None? {
        return false, titles', descriptions';
      }
      titles' := titles' + [items[i].title.value];
      if items[i].description.None? {
        return false, titles', descriptions';
      }
      descriptions' := descriptions' + [items[i].description.value];
      assert before + items[..i + 1] == (before + items[..i]) + [items[i]];
    }
    assert items[..|items|] == items;
    ok := true;
  }

  /** The inner `for row in r` loop of `get_ONS_datasets_urls`: appends each item's
      `latest_version.href` (`None` when absent); `ok` is false when an item lacks `links`
      or `latest_version` (the next `.get` is called on `None` and raises). */
  method AppendUrls(urls: seq<Option<string>>, items: seq<Item>, ghost before: seq<Item>)
    returns (ok: bool, urls': seq<Option<string>>)
    requires UrlsFrom(urls, before)
    ensures ok <==> forall m :: 0 <= m < |items| ==> ItemReadable(Urls, items[m])
    ensures ok ==> UrlsFrom(urls', before + items)
  {
    urls' := urls;
    for i := 0 to |items|
      invariant UrlsFrom(urls', before + items[..i])
      invariant forall m :: 0 <= m < i ==> ItemReadable(Urls, items[m])
    {
      if !items[i].links.LatestVersion? {
        return false, urls';
      }
      urls' := urls' + [items[i].links.href];
      assert before + items[..i + 1] == (before + items[..i]) + [items[i]];
    }
    assert items[..|items|] == items;
    ok := true;
  }

  /** `get_ONS_datasets_titles_descriptions`. `probe` is the status of the connectivity
      request; `recheck` that of the second request whose status the error text reports.
      `offsets` are the offsets of the listing requests sent, in order. */
  method GetTitlesDescriptions(probe: nat, recheck: nat, rs: seq<Response>)
    returns (out: Outcome<(Titles, seq<string>)>, offsets: seq<int>)
    ensures probe != HttpOk ==>
      offsets == [] && out == Returned((ErrorText("Error: " + Decimal(recheck)), []))
    ensures |offsets| <= |rs| && OffsetsFollowCounts(rs, offsets)
    ensures probe == HttpOk ==> FirstStop(TitlesAndDescriptions, rs, |offsets|)
    ensures probe == HttpOk ==>
      (out.Raised? <==> |offsets| > 0 && Unreadable(TitlesAndDescriptions, rs[|offsets| - 1]))
    ensures out.Raised? ==> out.error == KeyError
    ensures probe == HttpOk ==>
      (out.NeedsMoreInput? <==> !Ended(TitlesAndDescriptions, rs, |offsets|))
    ensures probe == HttpOk && out.Returned? ==>
      out.value.0.TitleList? &&
      TitlesFrom(out.value.0.titles, out.value.1, Decoded(rs, |offsets|))
  {
    if probe != HttpOk {
      return Returned((ErrorText("Error: " + Decimal(recheck)), [])), [];
    }
    ghost var v := TitlesAndDescriptions;
    var offset := 0;
    var titles: seq<string> := [];
    var descriptions: seq<string> := [];
    offsets := [];
    ProgressStart(v, rs);
    while |titles| < Max
      invariant Progress(v, rs, offsets, offset)
      invariant TitlesFrom(titles, descriptions, Decoded(rs, |offsets|))
      decreases |rs| - |offsets|
    {
      var k := |offsets|;
      if k == |rs| {
        ProgressHalts(v, rs, offsets, offset);
        return NeedsMoreInput, offsets;
      }
      if rs[k].DecodeError? {
        ProgressSteps(v, rs, offsets, offset);
        offsets := offsets + [offset];
        continue;
      }
      var ok;
      ok, titles, descriptions := AppendTitles(titles, descriptions, rs[k].items, Decoded(rs, k));
      if !ok {
        ProgressEnds(v, rs, offsets, offset);
        offsets := offsets + [offset];
        return Raised(KeyError), offsets;
      }
      if rs[k].count == 0 {
        // `break`: the lists are returned as they stand
        ProgressEnds(v, rs, offsets, offset);
        offsets := offsets + [offset];
        return Returned((TitleList(titles), descriptions)), offsets;
      }
      ProgressSteps(v, rs, offsets, offset);
      offsets := offsets + [offset];
      offset := offset + rs[k].count;
    }
    ProgressHalts(v, rs, offsets, offset);
    out := Returned((TitleList(titles), descriptions));
  }

  /** `get_ONS_datasets_urls`: the same loop without the probe, collecting
      `row.get("links").get("latest_version").get("href")`. */
  method GetDatasetUrls(rs: seq<Response>)
    returns (out: Outcome<seq<Option<string>>>, offsets: seq<int>)
    ensures |offsets| <= |rs| && OffsetsFollowCounts(rs, offsets)
    ensures FirstStop(Urls, rs, |offsets|)
    ensures out.Raised? <==> |offsets| > 0 && Unreadable(Urls, rs[|offsets| - 1])
    ensures out.Raised? ==> out.error == AttributeError
    ensures out.NeedsMoreInput? <==> !Ended(Urls, rs, |offsets|)
    ensures out.Returned? ==> UrlsFrom(out.value, Decoded(rs, |offsets|))
  {
    ghost var v := Urls;
    var offset := 0;
    var urls: seq<Option<string>> := [];
    offsets := [];
    ProgressStart(v, rs);
    while |urls| < Max
      invariant Progress(v, rs, offsets, offset)
      invariant UrlsFrom(urls, Decoded(rs, |offsets|))
      decreases |rs| - |offsets|
    {
      var k := |offsets|;
      if k == |rs| {
        ProgressHalts(v, rs, offsets, offset);
        return NeedsMoreInput, offsets;
      }
      if rs[k].DecodeError? {
        ProgressSteps(v, rs, offsets, offset);
        offsets := offsets + [offset];
        continue;
      }
      var ok;
      ok, urls := AppendUrls(urls, rs[k].items, Decoded(rs, k));
      if !ok {
        ProgressEnds(v, rs, offsets, offset);
        offsets := offsets + [offset];
        return Raised(AttributeError), offsets;
      }
      if rs[k].count == 0 {
        // `break`: the list is returned as it stands
        ProgressEnds(v, rs, offsets, offset);
        offsets := offsets + [offset];
        return Returned(urls), offsets;
      }
      ProgressSteps(v, rs, offsets, offset);
      offsets := offsets + [offset];
      offset := offset + rs[k].count;
    }
    ProgressHalts(v, rs, offsets, offset);
    out := Returned(urls);
  }

  // ---------------------------------------------------------------- properties of a run

  /** Consecutive requests: the next offset is the previous one plus the count of the page
      received in between, so after a decode failure the same offset is requested again and
      no item was taken from it. */
  lemma RetryRepeatsOffset(rs: seq<Response>, offsets: seq<int>, j: nat)
    requires |offsets| <= |rs| && OffsetsFollowCounts(rs, offsets)
    requires j + 1 < |offsets|
    ensures offsets[j + 1] == offsets[j] + CountOf(rs[j])
    ensures rs[j].DecodeError? ==> offsets[j + 1] == offsets[j] && Decoded(rs, j + 1) == Decoded(rs, j)
  {
  }

  /** Taking more responses never shortens the decoded items: earlier items stay in place. */
  lemma {:induction false} DecodedGrows(rs: seq<Response>, j: nat, k: nat)
    requires j <= k <= |rs|
    ensures Decoded(rs, j) <= Decoded(rs, k)
    decreases k - j
  {
    if j < k {
      DecodedGrows(rs, j, k - 1);
    }
  }

  /** The ceiling is checked only before a request: a run that ends by itself has sent at
      least one request, the list was below `Max` before the last page, and it ends short of
      `Max` plus that page's items. */
  lemma CeilingOvershoot(v: Variant, rs: seq<Response>, k: nat)
    requires FirstStop(v, rs, k) && Ended(v, rs, k)
    ensures k > 0
    ensures |Decoded(rs, k - 1)| < Max
    ensures |Decoded(rs, k)| < Max + |ItemsOf(rs[k - 1])|
  {
    assert !StopsAt(v, rs, k - 1);
  }

  /** A single page of `Max + 1` readable items ends the run after one request with more
      than `Max` entries: the ceiling does not bound the result. */
  lemma CeilingIsCheckedAtHead(v: Variant, it: Item)
    requires ItemReadable(v, it)
    ensures var rs := [Page(seq(Max + 1, _ => it), Max + 1)];
      FirstStop(v, rs, 1) && Ended(v, rs, 1) && |Decoded(rs, 1)| == Max + 1
  {
    var rs := [Page(seq(Max + 1, _ => it), Max + 1)];
    assert Decoded(rs, 1) == rs[0].items;
    assert !Unreadable(v, rs[0]);
    assert !StopsAt(v, rs, 0);
  }

  /** Pages that all decode and are readable, followed by one zero-count page, with fewer
      than `Max` items before it: the run requests every page, in order, and ends there;
      the items it collects are all of theirs in order. */
  lemma ZeroPageEndsHarvest(v: Variant, rs: seq<Response>, pages: nat)
    requires pages + 1 == |rs|
    requires forall j :: 0 <= j < pages ==> !ZeroPage(rs[j]) && !Unreadable(v, rs[j])
    requires ZeroPage(rs[pages]) && !Unreadable(v, rs[pages])
    requires |Decoded(rs, pages)| < Max
    ensures FirstStop(v, rs, |rs|) && Ended(v, rs, |rs|)
    ensures Decoded(rs, |rs|) == Decoded(rs, pages) + rs[pages].items
  {
    forall j | 0 <= j < |rs|
      ensures !StopsAt(v, rs, j)
    {
      DecodedGrows(rs, j, pages);
    }
  }
}
