/** Cursor pagination of resource lists, with label selectors applied while filling a page. */
module Pagination {
  import opened Text

  /** A stored resource under its scoped key. */
  datatype Stored = Stored(key: string, namespace: string, name: string, labels: map<string, string>)

  /** Scoped keys contain a slash, so none is empty. */
  type Item = it: Stored | it.key != "" witness Stored("/", "", "", map[])

  const DEFAULT_LIST_LIMIT := 1000
  const MAX_PAGINATION_LIMIT := 1000

  function NewItem(namespace: string, name: string, labels: map<string, string>): Item {
    Stored(ScopedName(namespace, name), namespace, name, labels)
  }

  predicate InNamespace(it: Item, ns: string) {
    ns == "" || EqualFold(NormalizeNamespace(it.namespace), ns)
  }

  predicate Selected(it: Item, selector: map<string, string>) {
    forall k :: k in selector ==> k in it.labels && it.labels[k] == selector[k]
  }

  predicate Beyond(it: Item, after: string) {
    after == "" || Less(after, it.key)
  }

  function Choice(selector: map<string, string>): Item -> bool {
    (it: Item) => Selected(it, selector)
  }

  function Past(after: string): Item -> bool {
    (it: Item) => Beyond(it, after)
  }

  // -------------------------------------------------------------------- filters

  function Filter(s: seq<Item>, p: Item -> bool): (r: seq<Item>)
    ensures |r| <= |s|
  {
    if s == [] then [] else (if p(s[0]) then [s[0]] else []) + Filter(s[1..], p)
  }

  lemma {:induction false} FilterConcat(s: seq<Item>, t: seq<Item>, p: Item -> bool)
    ensures Filter(s + t, p) == Filter(s, p) + Filter(t, p)
  {
    if s == [] {
      assert s + t == t;
    } else {
      var first := if p(s[0]) then [s[0]] else [];
      assert (s + t)[0] == s[0] && (s + t)[1..] == s[1..] + t;
      FilterConcat(s[1..], t, p);
      Regroup(first, Filter(s[1..], p), Filter(t, p));
    }
  }

  lemma {:induction false} FilterAll(s: seq<Item>, p: Item -> bool)
    requires forall x :: x in s ==> p(x)
    ensures Filter(s, p) == s
  {
    if s != [] {
      FilterAll(s[1..], p);
    }
  }

  lemma {:induction false} FilterNone(s: seq<Item>, p: Item -> bool)
    requires forall x :: x in s ==> !p(x)
    ensures Filter(s, p) == []
  {
    if s != [] {
      FilterNone(s[1..], p);
    }
  }

  lemma {:induction false} FilterMembers(s: seq<Item>, p: Item -> bool)
    ensures forall x :: x in Filter(s, p) <==> x in s && p(x)
  {
    if s != [] {
      FilterMembers(s[1..], p);
    }
  }

  lemma {:induction false} FilterShrinks(s: seq<Item>, p: Item -> bool, q: Item -> bool, x: Item)
    requires forall y :: q(y) ==> p(y)
    requires x in s && p(x) && !q(x)
    ensures |Filter(s, q)| < |Filter(s, p)|
  {
    FilterWeaker(s[1..], p, q);
    if s[0] != x {
      FilterShrinks(s[1..], p, q, x);
    }
  }

  lemma {:induction false} FilterWeaker(s: seq<Item>, p: Item -> bool, q: Item -> bool)
    requires forall y :: q(y) ==> p(y)
    ensures |Filter(s, q)| <= |Filter(s, p)|
  {
    if s != [] {
      FilterWeaker(s[1..], p, q);
    }
  }

  function Take(s: seq<Item>, n: nat): seq<Item> {
    if |s| <= n then s else s[..n]
  }

  // ------------------------------------------------------------ store and pages

  /** The listing of one namespace, or of all, in the order the store returns it. */
  function Listing(items: seq<Item>, ns: string): seq<Item> {
    Filter(items, (it: Item) => InNamespace(it, ns))
  }

  function After(listing: seq<Item>, after: string): seq<Item> {
    Filter(listing, Past(after))
  }

  /** The store's page: the first items beyond the cursor. */
  function ListCursor(listing: seq<Item>, limit: int, after: string): seq<Item> {
    Take(After(listing, after), if limit <= 0 then DEFAULT_LIST_LIMIT else limit)
  }

  function BoundedSelectorPageLimit(limit: int): (n: nat)
    ensures 1 <= n <= MAX_PAGINATION_LIMIT
  {
    var l := if limit <= 0 then 100 else limit;
    if l > MAX_PAGINATION_LIMIT then MAX_PAGINATION_LIMIT else l
  }

  function ScopedListContinue(limit: int, lastKey: string, hasMore: bool): string {
    if limit > 0 && hasMore && lastKey != "" then lastKey else ""
  }

  datatype Page = Page(items: seq<Item>, continue_: string)

  function PageLimit(limit: int, selector: map<string, string>): nat {
    if selector != map[] then BoundedSelectorPageLimit(limit)
    else if limit <= 0 then DEFAULT_LIST_LIMIT else limit
  }

  /** The page a client should see: the first selected items beyond its cursor, and a
      token when the page is full. */
  function PageSpec(listing: seq<Item>, limit: int, after: string, selector: map<string, string>): Page {
    var n := PageLimit(limit, selector);
    var items := Take(Filter(After(listing, after), Choice(selector)), n);
    var token := selector != map[] || limit > 0;
    Page(items, if token && |items| == n && n > 0 then items[n - 1].key else "")
  }

  predicate KeyOrdered(s: seq<Item>) {
    forall i, j :: 0 <= i < j < |s| ==> Less(s[i].key, s[j].key)
  }

  lemma EarlierNotBeyond(s: seq<Item>, i: nat, j: nat)
    requires KeyOrdered(s) && j <= i < |s|
    ensures !Beyond(s[j], s[i].key)
  {
    LessIrreflexive(s[i].key);
    if j < i && Less(s[i].key, s[j].key) {
      LessTransitive(s[i].key, s[j].key, s[i].key);
    }
  }

  lemma AroundEntry(s: seq<Item>, i: nat)
    requires KeyOrdered(s) && i < |s|
    ensures forall x :: x in s[..i + 1] ==> !Past(s[i].key)(x)
    ensures forall x :: x in s[i + 1..] ==> Past(s[i].key)(x)
  {
    forall x | x in s[..i + 1]
      ensures !Past(s[i].key)(x)
    {
      var j :| 0 <= j <= i && s[j] == x;
      EarlierNotBeyond(s, i, j);
    }
    forall x | x in s[i + 1..]
      ensures Past(s[i].key)(x)
    {
      var j :| 0 <= j < |s| - i - 1 && s[i + 1..][j] == x;
      assert s[i + 1 + j] == x;
    }
  }

  /** Beyond the key of an entry of an ordered listing lie exactly the later entries. */
  lemma AfterEntry(s: seq<Item>, i: nat)
    requires KeyOrdered(s) && i < |s|
    ensures After(s, s[i].key) == s[i + 1..]
  {
    AroundEntry(s, i);
    FilterSplitAt(s, i + 1, Past(s[i].key));
  }

  lemma FilterSplitAt(s: seq<Item>, n: nat, p: Item -> bool)
    requires n <= |s| && (forall x :: x in s[..n] ==> !p(x)) && (forall x :: x in s[n..] ==> p(x))
    ensures Filter(s, p) == s[n..]
  {
    Halves(s, n, p);
    FilterNone(s[..n], p);
    FilterAll(s[n..], p);
  }

  /** Beyond any cursor lies a suffix of an ordered listing. */
  lemma {:induction false} AfterIsSuffix(s: seq<Item>, after: string) returns (a: nat)
    requires KeyOrdered(s)
    ensures a <= |s| && After(s, after) == s[a..]
  {
    if s == [] {
      a := 0;
    } else if Beyond(s[0], after) {
      a := 0;
      forall x | x in s
        ensures Beyond(x, after)
      {
        var j :| 0 <= j < |s| && s[j] == x;
        if after != "" && j > 0 {
          LessTransitive(after, s[0].key, s[j].key);
        }
      }
      FilterAll(s, Past(after));
    } else {
      var b := AfterIsSuffix(s[1..], after);
      a := b + 1;
      assert s[1..][b..] == s[a..];
    }
  }

  // ---------------------------------------------------------------- filled pages

  /** A cursor moved to an entry beyond it leaves fewer entries. */
  lemma CursorShrinks(listing: seq<Item>, after: string, last: Item)
    requires last in listing && Beyond(last, after)
    ensures |After(listing, last.key)| < |After(listing, after)|
  {
    LessIrreflexive(last.key);
    forall y: Item | Past(last.key)(y)
      ensures Past(after)(y)
    {
      if after != "" {
        LessTransitive(after, last.key, y.key);
      }
    }
    FilterShrinks(listing, Past(after), Past(last.key), last);
  }

  /** What a batch holds is listed and beyond the cursor. */
  lemma BatchBeyond(listing: seq<Item>, limit: int, cursor: string)
    ensures forall x :: x in ListCursor(listing, limit, cursor) ==> x in listing && Beyond(x, cursor)
  {
    var rest := After(listing, cursor);
    FilterMembers(listing, Past(cursor));
    forall x | x in ListCursor(listing, limit, cursor)
      ensures x in listing && Beyond(x, cursor)
    {
      assert x in rest && Past(cursor)(x);
    }
  }

  lemma BatchShrinks(listing: seq<Item>, limit: int, cursor: string)
    requires ListCursor(listing, limit, cursor) != []
    ensures var batch := ListCursor(listing, limit, cursor);
            |After(listing, batch[|batch| - 1].key)| < |After(listing, cursor)|
  {
    var batch := ListCursor(listing, limit, cursor);
    BatchBeyond(listing, limit, cursor);
    CursorShrinks(listing, cursor, batch[|batch| - 1]);
  }

  /** Filling a page in batches of twice its size, whatever the order of the listing: each
      batch starts beyond the key of the last item of the one before. */
  function Fill(listing: seq<Item>, pageLimit: nat, cursor: string, before: seq<Item>,
      p: Item -> bool): (items: seq<Item>)
    requires |before| < pageLimit
    ensures |items| <= pageLimit
    decreases |After(listing, cursor)|
  {
    var batch := ListCursor(listing, pageLimit * 2, cursor);
    var found := before + Filter(batch, p);
    if batch == [] then before
    else if |found| >= pageLimit then found[..pageLimit]
    else if |batch| < pageLimit * 2 then found
    else
      BatchShrinks(listing, pageLimit * 2, cursor);
      Fill(listing, pageLimit, batch[|batch| - 1].key, found, p)
  }

  function FilledPage(listing: seq<Item>, pageLimit: nat, after: string, p: Item -> bool): Page
    requires pageLimit > 0
  {
    var items := Fill(listing, pageLimit, after, [], p);
    Page(items, if |items| == pageLimit then items[pageLimit - 1].key else "")
  }

  /** The page that is served. */
  function PageOf(listing: seq<Item>, limit: int, after: string, selector: map<string, string>): Page {
    if selector == map[] then PageSpec(listing, limit, after, selector)
    else FilledPage(listing, BoundedSelectorPageLimit(limit), after, Choice(selector))
  }

  /** One page of a list request, with or without a label selector. */
  method FetchListPageWithSelector(items: seq<Item>, limit: int, after: string, ns: string,
      selector: map<string, string>) returns (page: Page)
    ensures page == PageOf(Listing(items, ns), limit, after, selector)
  {
    var listing := Listing(items, ns);
    if selector == map[] {
      var found := ListCursor(listing, limit, after);
      var cont := "";
      if |found| > 0 {
        cont := ScopedListContinue(limit, found[|found| - 1].key, |found| >= limit);
      }
      FilterAll(After(listing, after), Choice(selector));
      return Page(found, cont);
    }
    page := FillPage(listing, BoundedSelectorPageLimit(limit), after, Choice(selector));
  }

  datatype Progress = Full | Exhausted | More

  /** What scanning a batch makes of the page. */
  lemma FillUnfolds(listing: seq<Item>, pageLimit: nat, cursor: string, before: seq<Item>, p: Item -> bool,
      result: seq<Item>, scanned: nat)
    requires |before| < pageLimit && ListCursor(listing, pageLimit * 2, cursor) != []
    requires scanned <= |ListCursor(listing, pageLimit * 2, cursor)| && |result| <= pageLimit
    requires result == before + Filter(ListCursor(listing, pageLimit * 2, cursor)[..scanned], p)
    requires |result| < pageLimit ==> scanned == |ListCursor(listing, pageLimit * 2, cursor)|
    ensures var batch := ListCursor(listing, pageLimit * 2, cursor);
            && |After(listing, batch[|batch| - 1].key)| < |After(listing, cursor)|
            && Fill(listing, pageLimit, cursor, before, p) ==
                 if |result| == pageLimit || |batch| < pageLimit * 2 then result
                 else Fill(listing, pageLimit, batch[|batch| - 1].key, result, p)
  {
    var batch := ListCursor(listing, pageLimit * 2, cursor);
    BatchShrinks(listing, pageLimit * 2, cursor);
    if |result| == pageLimit {
      Halves(batch, scanned, p);
      Regroup(before, Filter(batch[..scanned], p), Filter(batch[scanned..], p));
      TakePrefix(result, Filter(batch[scanned..], p));
    } else {
      assert batch[..scanned] == batch;
    }
  }

  /** One batch: reads twice a page beyond the cursor and takes what the selector admits. */
  method FillBatch(listing: seq<Item>, pageLimit: nat, cursor: string, before: seq<Item>, p: Item -> bool)
    returns (result: seq<Item>, cursor': string, lastScanned: string, progress: Progress)
    requires |before| < pageLimit
    ensures progress.Full? ==> |result| == pageLimit && lastScanned == result[pageLimit - 1].key
    ensures progress.More? ==> |result| < pageLimit && |After(listing, cursor')| < |After(listing, cursor)|
    ensures progress.Exhausted? ==> |result| < pageLimit
    ensures Fill(listing, pageLimit, cursor, before, p) ==
              if progress.More? then Fill(listing, pageLimit, cursor', result, p) else result
  {
    var batchSize := pageLimit * 2;
    var batch := ListCursor(listing, batchSize, cursor);
    result, cursor', lastScanned := before, cursor, "";
    if |batch| == 0 {
      return result, cursor', lastScanned, Exhausted;
    }
    ghost var scanned := 0;
    result, lastScanned, scanned := ScanBatch(batch, before, pageLimit, p);
    FillUnfolds(listing, pageLimit, cursor, before, p, result, scanned);
    if |result| >= pageLimit {
      return result, cursor', lastScanned, Full;
    }
    cursor' := batch[|batch| - 1].key;
    progress := if |batch| < batchSize then Exhausted else More;
  }

  /** Fills a page in batches, since the selector may reject items. */
  method FillPage(listing: seq<Item>, pageLimit: nat, after: string, p: Item -> bool) returns (page: Page)
    requires pageLimit > 0
    ensures page == FilledPage(listing, pageLimit, after, p)
  {
    var result: seq<Item> := [];
    var cursor := after;
    while true
      invariant |result| < pageLimit
                && Fill(listing, pageLimit, cursor, result, p) == Fill(listing, pageLimit, after, [], p)
      decreases |After(listing, cursor)|
    {
      var lastScanned, progress;
      result, cursor, lastScanned, progress := FillBatch(listing, pageLimit, cursor, result, p);
      match progress
      case Full => return Page(result, ScopedListContinue(pageLimit, lastScanned, true));
      case Exhausted => return Page(result, "");
      case More =>
    }
  }

  // --------------------------------------------------------- pages in key order

  /** Beyond the n-th entry after a cursor lie the entries from there on. */
  lemma AfterNth(listing: seq<Item>, cursor: string, n: nat)
    requires KeyOrdered(listing) && 0 < n <= |After(listing, cursor)|
    ensures After(listing, After(listing, cursor)[n - 1].key) == After(listing, cursor)[n..]
  {
    var a := AfterIsSuffix(listing, cursor);
    AfterEntry(listing, a + n - 1);
  }

  /** In key order, filling in batches is filtering everything beyond the cursor. */
  lemma {:induction false} FillOrdered(listing: seq<Item>, pageLimit: nat, cursor: string, before: seq<Item>,
      p: Item -> bool)
    requires KeyOrdered(listing) && |before| < pageLimit
    ensures Fill(listing, pageLimit, cursor, before, p) == Take(before + Filter(After(listing, cursor), p), pageLimit)
    decreases |After(listing, cursor)|
  {
    var rest, batch := After(listing, cursor), ListCursor(listing, pageLimit * 2, cursor);
    if batch != [] {
      var found := before + Filter(batch, p);
      assert batch[..|batch|] == batch;
      BatchStep(rest, pageLimit * 2, |batch|, before, found, p);
      AfterNth(listing, cursor, |batch|);
      BatchShrinks(listing, pageLimit * 2, cursor);
      if |found| < pageLimit && |batch| == pageLimit * 2 {
        FillOrdered(listing, pageLimit, batch[|batch| - 1].key, found, p);
      }
    }
  }

  lemma PageOfOrdered(listing: seq<Item>, limit: int, after: string, selector: map<string, string>)
    requires KeyOrdered(listing)
    ensures PageOf(listing, limit, after, selector) == PageSpec(listing, limit, after, selector)
  {
    if selector != map[] {
      var n := BoundedSelectorPageLimit(limit);
      FillOrdered(listing, n, after, [], Choice(selector));
      var m := Filter(After(listing, after), Choice(selector));
      assert [] + m == m;
    }
  }

  lemma TakePrefix(a: seq<Item>, b: seq<Item>)
    ensures Take(a + b, |a|) == a
  {
  }

  lemma ShortBatch(rest: seq<Item>, batchSize: nat)
    ensures var batch := Take(rest, batchSize);
            batch == rest[..|batch|] && (|batch| < batchSize ==> rest[|batch|..] == [])
  {
  }

  lemma BatchStep(rest: seq<Item>, batchSize: nat, scanned: nat, before: seq<Item>, result: seq<Item>, p: Item -> bool)
    requires scanned <= |Take(rest, batchSize)| && result == before + Filter(Take(rest, batchSize)[..scanned], p)
    ensures result + Filter(rest[scanned..], p) == before + Filter(rest, p)
    ensures Take(before + Filter(rest, p), |result|) == result
    ensures var batch := Take(rest, batchSize); |batch| < batchSize ==> rest[|batch|..] == []
  {
    ShortBatch(rest, batchSize);
    assert Take(rest, batchSize)[..scanned] == rest[..scanned];
    ScanStep(rest, scanned, before, result, p);
  }

  /** Scanning part of what is left moves its selected items into the result. */
  lemma ScanStep(rest: seq<Item>, scanned: nat, before: seq<Item>, result: seq<Item>, p: Item -> bool)
    requires scanned <= |rest| && result == before + Filter(rest[..scanned], p)
    ensures result + Filter(rest[scanned..], p) == before + Filter(rest, p)
    ensures Take(before + Filter(rest, p), |result|) == result
  {
    Halves(rest, scanned, p);
    Regroup(before, Filter(rest[..scanned], p), Filter(rest[scanned..], p));
    TakePrefix(result, Filter(rest[scanned..], p));
  }

  lemma Halves(s: seq<Item>, n: nat, p: Item -> bool)
    requires n <= |s|
    ensures Filter(s, p) == Filter(s[..n], p) + Filter(s[n..], p)
  {
    assert s == s[..n] + s[n..];
    FilterConcat(s[..n], s[n..], p);
  }

  lemma Regroup(a: seq<Item>, b: seq<Item>, c: seq<Item>)
    ensures a + (b + c) == (a + b) + c
  {
  }

  lemma FilterNext(before: seq<Item>, batch: seq<Item>, i: nat, p: Item -> bool)
    requires i < |batch|
    ensures before + Filter(batch[..i + 1], p) ==
              before + Filter(batch[..i], p) + if p(batch[i]) then [batch[i]] else []
  {
    var one := [batch[i]];
    assert batch[..i + 1] == batch[..i] + one && one[1..] == [];
    FilterConcat(batch[..i], one, p);
    assert Filter(one, p) == if p(batch[i]) then [batch[i]] else [];
  }

  /** Appends a batch's selected items until the page is full. */
  method ScanBatch(batch: seq<Item>, before: seq<Item>, pageLimit: nat, p: Item -> bool)
    returns (result: seq<Item>, lastScanned: string, ghost scanned: nat)
    requires batch != [] && |before| < pageLimit
    ensures 0 < scanned <= |batch| && result == before + Filter(batch[..scanned], p) && |result| <= pageLimit
    ensures lastScanned == batch[scanned - 1].key
    ensures |result| == pageLimit ==> result[pageLimit - 1] == batch[scanned - 1]
    ensures |result| < pageLimit ==> scanned == |batch|
  {
    result, lastScanned := before, "";
    var i := 0;
    while i < |batch|
      invariant 0 <= i <= |batch| && |result| < pageLimit
      invariant result == before + Filter(batch[..i], p)
      invariant i > 0 ==> lastScanned == batch[i - 1].key
    {
      FilterNext(before, batch, i, p);
      lastScanned := batch[i].key;
      if p(batch[i]) {
        result := result + [batch[i]];
        if |result| >= pageLimit {
          scanned := i + 1;
          return;
        }
      }
      i := i + 1;
    }
    scanned := i;
  }

  // ------------------------------------------------------------ following pages

  lemma BeyondLater(x: Item, last: Item, cursor: string)
    requires Beyond(last, cursor) && Beyond(x, last.key)
    ensures Beyond(x, cursor)
  {
    if cursor != "" {
      LessTransitive(cursor, last.key, x.key);
    }
  }

  lemma {:induction false} FillMember(listing: seq<Item>, pageLimit: nat, cursor: string, before: seq<Item>,
      p: Item -> bool, x: Item)
    requires |before| < pageLimit && x in Fill(listing, pageLimit, cursor, before, p)
    ensures x in before || (x in listing && p(x) && Beyond(x, cursor))
    decreases |After(listing, cursor)|
  {
    var batch := ListCursor(listing, pageLimit * 2, cursor);
    var found := before + Filter(batch, p);
    BatchBeyond(listing, pageLimit * 2, cursor);
    FilterMembers(batch, p);
    if batch != [] && |found| < pageLimit && |batch| >= pageLimit * 2 {
      var last := batch[|batch| - 1];
      assert last in batch;
      BatchShrinks(listing, pageLimit * 2, cursor);
      FillMember(listing, pageLimit, last.key, found, p, x);
      if x !in found {
        BeyondLater(x, last, cursor);
      }
    }
  }

  lemma PlainMember(listing: seq<Item>, n: nat, after: string, p: Item -> bool, x: Item)
    requires x in Take(Filter(After(listing, after), p), n)
    ensures x in listing && Beyond(x, after)
  {
    var rest := After(listing, after);
    FilterMembers(rest, p);
    FilterMembers(listing, Past(after));
    assert x in Filter(rest, p);
    assert Past(after)(x);
  }

  /** Whatever the order of the listing, a page holds listed and selected items beyond the
      cursor. */
  lemma PageMember(listing: seq<Item>, limit: int, after: string, selector: map<string, string>, x: Item)
    requires x in PageOf(listing, limit, after, selector).items
    ensures x in listing && Selected(x, selector) && Beyond(x, after)
  {
    if selector == map[] {
      PlainMember(listing, PageLimit(limit, selector), after, Choice(selector), x);
    } else {
      FillMember(listing, BoundedSelectorPageLimit(limit), after, [], Choice(selector), x);
      assert Choice(selector)(x);
    }
  }

  /** A token is the key of the page's last item and leaves fewer items, so that following
      tokens ends, for any listing. */
  lemma TokenShrinks(listing: seq<Item>, limit: int, after: string, selector: map<string, string>)
    ensures var page := PageOf(listing, limit, after, selector);
            page.continue_ != "" ==>
              |After(listing, page.continue_)| < |After(listing, after)| && page.items != []
              && page.continue_ == page.items[|page.items| - 1].key && Beyond(page.items[|page.items| - 1], after)
  {
    var page := PageOf(listing, limit, after, selector);
    if page.continue_ != "" {
      PageMember(listing, limit, after, selector, page.items[|page.items| - 1]);
      CursorShrinks(listing, after, page.items[|page.items| - 1]);
    }
  }

  /** All pages from a cursor on, following continue tokens until there is none. */
  function Follow(listing: seq<Item>, limit: int, after: string, selector: map<string, string>): seq<Item>
    decreases |After(listing, after)|
  {
    var page := PageOf(listing, limit, after, selector);
    TokenShrinks(listing, limit, after, selector);
    if page.continue_ == "" then page.items
    else page.items + Follow(listing, limit, page.continue_, selector)
  }

  /** Cutting the selected entries of an ordered suffix at a page boundary. */
  lemma {:induction false} CutSelected(s: seq<Item>, a: nat, n: nat, p: Item -> bool) returns (i: nat)
    requires a <= |s| && 0 < n <= |Filter(s[a..], p)|
    ensures a <= i < |s| && Filter(s[a..], p)[n - 1] == s[i]
    ensures Filter(s[a..], p)[n..] == Filter(s[i + 1..], p)
    decreases |s| - a
  {
    assert s[a..][1..] == s[a + 1..];
    var rest := Filter(s[a + 1..], p);
    if p(s[a]) {
      assert Filter(s[a..], p) == [s[a]] + rest;
      if n == 1 {
        i := a;
      } else {
        i := CutSelected(s, a + 1, n - 1, p);
      }
    } else {
      i := CutSelected(s, a + 1, n, p);
    }
  }

  lemma NextPageStarts(listing: seq<Item>, after: string, n: nat, p: Item -> bool)
    requires KeyOrdered(listing) && 0 < n <= |Filter(After(listing, after), p)|
    ensures var m := Filter(After(listing, after), p); Filter(After(listing, m[n - 1].key), p) == m[n..]
  {
    var a := AfterIsSuffix(listing, after);
    var i := CutSelected(listing, a, n, p);
    AfterEntry(listing, i);
  }

  lemma PageParts(listing: seq<Item>, limit: int, after: string, selector: map<string, string>)
    requires limit >= 1 || selector != map[]
    ensures var page, n := PageSpec(listing, limit, after, selector), PageLimit(limit, selector);
            var m := Filter(After(listing, after), Choice(selector));
            n > 0 && if |m| < n then page == Page(m, "") else page == Page(m[..n], m[n - 1].key)
  {
  }

  /** In key order: the last page, or a full page and the pages from its last key. */
  lemma FollowStep(listing: seq<Item>, limit: int, after: string, selector: map<string, string>)
    requires KeyOrdered(listing) && (limit >= 1 || selector != map[])
    ensures var n, m := PageLimit(limit, selector), Filter(After(listing, after), Choice(selector));
            n > 0 && if |m| < n then Follow(listing, limit, after, selector) == m
                     else |After(listing, m[n - 1].key)| < |After(listing, after)|
                          && Follow(listing, limit, after, selector) ==
                               m[..n] + Follow(listing, limit, m[n - 1].key, selector)
  {
    PageOfOrdered(listing, limit, after, selector);
    PageParts(listing, limit, after, selector);
    TokenShrinks(listing, limit, after, selector);
  }

  lemma Rejoin(m: seq<Item>, n: nat, rest: seq<Item>)
    requires n <= |m| && rest == m[n..]
    ensures m[..n] + rest == m
  {
  }

  lemma {:induction false} FollowFrom(listing: seq<Item>, limit: int, after: string, selector: map<string, string>)
    requires KeyOrdered(listing) && (limit >= 1 || selector != map[])
    ensures Follow(listing, limit, after, selector) == Filter(After(listing, after), Choice(selector))
    decreases |After(listing, after)|
  {
    var n := PageLimit(limit, selector);
    var m := Filter(After(listing, after), Choice(selector));
    FollowStep(listing, limit, after, selector);
    if |m| >= n {
      FollowFrom(listing, limit, m[n - 1].key, selector);
      NextPageStarts(listing, after, n, Choice(selector));
      Rejoin(m, n, Follow(listing, limit, m[n - 1].key, selector));
    }
  }

  /** Following tokens from the start lists every selected item of the namespace once, in
      key order; no token comes with an empty page. */
  lemma PagesCoverListing(items: seq<Item>, limit: int, ns: string, selector: map<string, string>)
    requires KeyOrdered(Listing(items, ns)) && (limit >= 1 || selector != map[])
    ensures Follow(Listing(items, ns), limit, "", selector) == Filter(Listing(items, ns), Choice(selector))
    ensures KeyOrdered(Follow(Listing(items, ns), limit, "", selector))
    ensures forall after :: PageOf(Listing(items, ns), limit, after, selector).continue_ != "" ==>
              PageOf(Listing(items, ns), limit, after, selector).items != []
  {
    var listing := Listing(items, ns);
    FollowFrom(listing, limit, "", selector);
    FilterAll(listing, Past(""));
    FilterOrdered(listing, Choice(selector));
    forall after
      ensures PageOf(listing, limit, after, selector).continue_ != "" ==>
                PageOf(listing, limit, after, selector).items != []
    {
      TokenShrinks(listing, limit, after, selector);
    }
  }

  lemma {:induction false} FilterOrdered(s: seq<Item>, p: Item -> bool)
    requires KeyOrdered(s)
    ensures KeyOrdered(Filter(s, p))
  {
    if s != [] {
      FilterOrdered(s[1..], p);
      var rest := Filter(s[1..], p);
      FilterMembers(s[1..], p);
      forall i | 0 <= i < |rest|
        ensures Less(s[0].key, rest[i].key)
      {
        assert rest[i] in rest;
        var j :| 0 <= j < |s[1..]| && s[1..][j] == rest[i];
        assert s[1..][j] == s[j + 1];
      }
    }
  }

  // ---------------------------------------------------- listings out of key order

  lemma ConsOrdered(x: Item, rest: seq<Item>)
    requires KeyOrdered(rest) && forall i :: 0 <= i < |rest| ==> Less(x.key, rest[i].key)
    ensures KeyOrdered([x] + rest)
  {
  }

  /** Pages of one, whatever the order and the selector: keys strictly increase. */
  lemma {:induction false} SinglePagesIncrease(listing: seq<Item>, after: string, selector: map<string, string>)
    ensures var r := Follow(listing, 1, after, selector);
            KeyOrdered(r) && forall i :: 0 <= i < |r| ==> Beyond(r[i], after)
    decreases |After(listing, after)|
  {
    var page := PageOf(listing, 1, after, selector);
    assert |page.items| <= 1;
    if page.items != [] {
      PageMember(listing, 1, after, selector, page.items[0]);
    }
    TokenShrinks(listing, 1, after, selector);
    if page.continue_ != "" {
      var cursor := page.continue_;
      SinglePagesIncrease(listing, cursor, selector);
      var rest := Follow(listing, 1, cursor, selector);
      forall i | 0 <= i < |rest|
        ensures Beyond(rest[i], after)
      {
        if after != "" {
          LessTransitive(after, cursor, rest[i].key);
        }
      }
      assert page.items == [page.items[0]];
      ConsOrdered(page.items[0], rest);
    }
  }

  /** With a selector: pages of every size are right for a listing in key order, and can be
      right only if the selected items are in key order. */
  lemma SelectorPages(listing: seq<Item>, selector: map<string, string>)
    ensures KeyOrdered(listing) ==> CoveredBy(listing, selector)
    ensures CoveredBy(listing, selector) ==> KeyOrdered(Filter(listing, Choice(selector)))
  {
    if KeyOrdered(listing) {
      forall limit | limit >= 1
        ensures Follow(listing, limit, "", selector) == Filter(listing, Choice(selector))
      {
        FollowFrom(listing, limit, "", selector);
        FilterAll(listing, Past(""));
      }
    }
    SinglePagesIncrease(listing, "", selector);
  }

  /** Pages of every size concatenate to the selected items. */
  ghost predicate CoveredBy(listing: seq<Item>, selector: map<string, string>) {
    forall limit :: limit >= 1 ==> Follow(listing, limit, "", selector) == Filter(listing, Choice(selector))
  }

  /** Plain pages of every size cover a listing exactly when it is in key order, and so do the
      pages of all selectors. */
  lemma PlainPagesExact(listing: seq<Item>)
    ensures CoveredBy(listing, map[]) <==> KeyOrdered(listing)
    ensures (forall selector :: CoveredBy(listing, selector)) <==> KeyOrdered(listing)
    ensures Filter(listing, Choice(map[])) == listing
  {
    FilterAll(listing, Choice(map[]));
    forall selector
      ensures KeyOrdered(listing) ==> CoveredBy(listing, selector)
    {
      SelectorPages(listing, selector);
    }
    SelectorPages(listing, map[]);
  }

  lemma {:induction false} LessAfterPrefix(p: string, a: string, b: string)
    ensures Less(p + a, p + b) <==> Less(a, b)
  {
    if p == "" {
      assert p + a == a && p + b == b;
    } else {
      assert (p + a)[1..] == p[1..] + a && (p + b)[1..] == p[1..] + b;
      LessAfterPrefix(p[1..], a, b);
    }
  }

  /** The in-memory stores list by bare name: within one namespace that is key order. */
  lemma NameOrderWithinNamespace(s: seq<Item>, ns: string)
    requires forall it :: it in s ==> it.key == ScopedName(it.namespace, it.name)
    requires forall it :: it in s ==> NormalizeNamespace(it.namespace) == ns
    requires forall i, j :: 0 <= i < j < |s| ==> Less(TrimSpace(s[i].name), TrimSpace(s[j].name))
    ensures KeyOrdered(s)
  {
    forall i, j | 0 <= i < j < |s|
      ensures Less(s[i].key, s[j].key)
    {
      assert s[i] in s && s[j] in s;
      LessAfterPrefix(ns + "/", TrimSpace(s[i].name), TrimSpace(s[j].name));
    }
  }

  /** Across namespaces it is not, and pages of one then hide an item. */
  lemma NameOrderLosesItems()
    ensures var s := [NewItem("z", "a", map[]), NewItem("a", "b", map[])];
            Less(s[0].name, s[1].name) && Follow(s, 1, "", map[]) != s
  {
    var s := [NewItem("z", "a", map[]), NewItem("a", "b", map[])];
    TrimSolid("z");
    TrimSolid("a");
    assert s[0].key[0] == 'z' && s[1].key[0] == 'a';
    assert !KeyOrdered(s);
    SinglePagesIncrease(s, "", map[]);
  }
}
