/**
 Keyset pagination of the objects, newest first: a page starts where the cursor of
 the one before it says, so objects that come and go in between neither hide nor
 repeat the ones that stay.
 */
module Listing {
  import opened Basics

  const MAX_LIMIT: nat := 500

  const I64_MIN: int := -0x8000_0000_0000_0000
  const I64_MAX: int := 0x7fff_ffff_ffff_ffff

  /** An object's place in the listing. */
  datatype Key = Key(createdAt: int, hash: string)

  /** A cursor is the key of the last object listed. */
  type Cursor = Key

  /** What the database lists at one time: by hash, its time and whatever the query looks at. */
  datatype Item = Item(createdAt: int, name: string)
  type Objects = map<string, Item>

  /** Newest first, then by hash. */
  predicate Precedes(a: Key, b: Key) {
    a.createdAt > b.createdAt || (a.createdAt == b.createdAt && Before(a.hash, b.hash))
  }

  lemma PrecedesIsOrder(a: Key, b: Key, c: Key)
    ensures Precedes(a, b) && Precedes(b, c) ==> Precedes(a, c)
    ensures Precedes(a, b) || Precedes(b, a) || a == b
    ensures !(Precedes(a, b) && Precedes(b, a)) && !Precedes(a, a)
  {
    BeforeIsTotal(a.hash, b.hash);
    BeforeIsStrict(a.hash, b.hash);
    BeforeIsStrict(a.hash, a.hash);
    if Before(a.hash, b.hash) && Before(b.hash, c.hash) {
      BeforeIsTransitive(a.hash, b.hash, c.hash);
    }
  }

  /** The objects a query matches. */
  function Matching(objects: Objects, matches: Item -> bool): set<Key> {
    set h | h in objects && matches(objects[h]) :: Key(objects[h].createdAt, h)
  }

  /** Where a listing without a cursor starts. */
  function StartOf(cursor: Option<Cursor>): Key {
    if cursor.Some? then cursor.value else Key(I64_MAX, "")
  }

  // ------------------------------------------------------------ cursors as text

  function Digits(n: nat): (s: string)
    ensures s != [] && forall i :: 0 <= i < |s| ==> '0' <= s[i] <= '9'
  {
    if n < 10 then [Digit(n)] else Digits(n / 10) + [Digit(n % 10)]
  }

  function Digit(n: nat): (c: char)
    requires n < 10
    ensures '0' <= c <= '9' && Value(c) == n
  {
    '0' + n as char
  }

  function Value(c: char): nat
    requires '0' <= c <= '9'
  {
    (c - '0') as nat
  }

  function PrintInt(n: int): string {
    if n < 0 then "-" + Digits(-n) else Digits(n)
  }

  /** Decimal digits only, at least one. */
  function ParseDigits(s: string): Option<nat> {
    if s == [] || !('0' <= s[|s| - 1] <= '9') then None
    else if |s| == 1 then Some(Value(s[0]))
    else
      var front := ParseDigits(s[..|s| - 1]);
      if front.None? then None else Some(10 * front.value + Value(s[|s| - 1]))
  }

  /** An i64 as Rust reads it: a sign or none, digits, and within range. */
  function ParseInt(s: string): Option<int> {
    var negative := s != [] && s[0] == '-';
    var digits := if s != [] && (s[0] == '-' || s[0] == '+') then s[1..] else s;
    var n := ParseDigits(digits);
    if n.None? then None
    else
      var value := if negative then 0 - n.value as int else n.value as int;
      if I64_MIN <= value <= I64_MAX then Some(value) else None
  }

  function Print(c: Cursor): string {
    PrintInt(c.createdAt) + ":" + c.hash
  }

  /** Where the first colon is, or the end. */
  function Colon(s: string): (i: nat)
    ensures i <= |s| && (forall k :: 0 <= k < i ==> s[k] != ':') && (i < |s| ==> s[i] == ':')
  {
    if s == [] || s[0] == ':' then 0 else 1 + Colon(s[1..])
  }

  function Parse(s: string): Option<Cursor> {
    var i := Colon(s);
    if i == |s| then None
    else
      var time := ParseInt(s[..i]);
      if time.None? then None else Some(Key(time.value, s[i + 1..]))
  }

  lemma {:induction false} DigitsRoundTrip(n: nat)
    ensures ParseDigits(Digits(n)) == Some(n)
  {
    var s := Digits(n);
    if n >= 10 {
      DigitsRoundTrip(n / 10);
      assert s[..|s| - 1] == Digits(n / 10);
    }
  }

  lemma NegativeRoundTrip(n: nat)
    requires 0 < n <= -I64_MIN
    ensures ParseInt("-" + Digits(n)) == Some(0 - n as int)
  {
    var s := "-" + Digits(n);
    assert s[0] == '-' && s[1..] == Digits(n);
    DigitsRoundTrip(n);
  }

  lemma NaturalRoundTrip(n: nat)
    requires n <= I64_MAX
    ensures ParseInt(Digits(n)) == Some(n as int)
  {
    var s := Digits(n);
    assert s[0] != '-' && s[0] != '+';
    DigitsRoundTrip(n);
  }

  lemma NoColon(n: int)
    ensures forall i :: 0 <= i < |PrintInt(n)| ==> PrintInt(n)[i] != ':'
  {
    var digits := Digits(if n < 0 then -n else n);
    assert forall i :: 0 <= i < |digits| ==> digits[i] != ':';
  }

  lemma IntRoundTrip(n: int)
    requires I64_MIN <= n <= I64_MAX
    ensures ParseInt(PrintInt(n)) == Some(n)
    ensures forall i :: 0 <= i < |PrintInt(n)| ==> PrintInt(n)[i] != ':'
  {
    NoColon(n);
    if n < 0 {
      NegativeRoundTrip(-n);
    } else {
      NaturalRoundTrip(n);
    }
  }

  /** Cursors survive printing and parsing, whatever the hash is made of. */
  lemma CursorRoundTrip(c: Cursor)
    requires -0x8000_0000_0000_0000 <= c.createdAt <= 0x7fff_ffff_ffff_ffff
    ensures Parse(Print(c)) == Some(c)
  {
    IntRoundTrip(c.createdAt);
    var time, s := PrintInt(c.createdAt), Print(c);
    assert s[|time|] == ':';
    assert forall k :: 0 <= k < |time| ==> s[k] == time[k];
    assert Colon(s) == |time|;
    assert s[..|time|] == time && s[|time| + 1..] == c.hash;
  }

  /** A cursor is its time in decimal, a colon, and its hash. */
  lemma CursorAsPrinted(n: nat, tens: nat, last: nat, hash: string)
    requires last < 10 && n == 10 * tens + last
    ensures tens > 0 ==> Digits(n) == Digits(tens) + ["0123456789"[last]]
    ensures tens == 0 ==> Digits(n) == ["0123456789"[last]]
    ensures Print(Key(n, hash)) == Digits(n) + ":" + hash
    ensures n > 0 ==> Print(Key(0 - n as int, hash)) == "-" + Digits(n) + ":" + hash
  {
    assert n / 10 == tens && n % 10 == last;
    assert Digit(last) == "0123456789"[last];
  }

  // ------------------------------------------------------------ one page

  datatype Page = Page(objects: seq<Key>, next: Option<string>)

  ghost predicate Ordered(s: seq<Key>) {
    forall i, j :: 0 <= i < j < |s| ==> Precedes(s[i], s[j])
  }

  /** `s` is the first keys of `from`, in order: what is not in it comes after all of it. */
  ghost predicate Leads(s: seq<Key>, from: set<Key>) {
    && Ordered(s) && Elems(s) <= from
    && forall k, i :: k in from && k !in Elems(s) && 0 <= i < |s| ==> Precedes(s[i], k)
  }

  function After(keys: set<Key>, start: Key): set<Key> {
    set k | k in keys && Precedes(start, k)
  }

  method First(keys: set<Key>) returns (first: Key)
    requires keys != {}
    ensures first in keys && forall k :: k in keys && k != first ==> Precedes(first, k)
  {
    first :| first in keys;
    var left := keys - {first};
    while left != {}
      invariant left <= keys && first in keys && first !in left
      invariant forall k :: k in keys && k !in left && k != first ==> Precedes(first, k)
      decreases left
    {
      var k :| k in left;
      PrecedesIsOrder(first, k, k);
      if Precedes(k, first) {
        forall other | other in keys && other !in left && other != first
          ensures Precedes(k, other)
        {
          PrecedesIsOrder(k, first, other);
        }
        first := k;
      }
      left := left - {k};
    }
  }

  /** The query: at most `limit` keys, in order. */
  method Query(from: set<Key>, limit: nat) returns (s: seq<Key>)
    ensures Leads(s, from) && |s| <= limit && (|s| < limit ==> Elems(s) == from)
  {
    s := [];
    var left := from;
    while left != {} && |s| < limit
      invariant left == from - Elems(s) && Elems(s) <= from && |s| <= limit
      invariant Ordered(s)
      invariant forall k, i :: k in left && 0 <= i < |s| ==> Precedes(s[i], k)
      decreases left
    {
      var first := First(left);
      assert Elems(s + [first]) == Elems(s) + {first};
      s, left := s + [first], left - {first};
    }
    assert forall k :: k in from && k !in Elems(s) ==> k in left;
  }

  lemma LeadsShorter(s: seq<Key>, from: set<Key>, n: nat)
    requires Leads(s, from) && n < |s|
    ensures Leads(s[..n], from) && Elems(s[..n]) != from
  {
    OrderedIsDistinct(s);
    assert s[n] in Elems(s) && s[n] !in Elems(s[..n]);
    assert forall m :: 0 <= m < n ==> s[m] in Elems(s[..n]);
    forall k, i | k in from && k !in Elems(s[..n]) && 0 <= i < n
      ensures Precedes(s[i], k)
    {
      if k in Elems(s) {
        var j :| 0 <= j < |s| && s[j] == k;
      }
    }
  }

  /** One row more than the page holds is fetched, to learn whether there is another page. */
  method List(objects: Objects, matches: Item -> bool, limit: nat, cursor: Option<Cursor>) returns (page: Page)
    ensures IsPage(objects, matches, limit, cursor, page)
  {
    var most := Clamp(limit, 1, MAX_LIMIT);
    var from := After(Matching(objects, matches), StartOf(cursor));
    var rows := Query(from, most + 1);
    if |rows| > most {
      var shown := rows[..most];
      LeadsShorter(rows, from, most);
      var last := shown[most - 1];
      var next := Print(last);
      page := Page(shown, Some(next));
    } else {
      page := Page(rows, None);
    }
    assert PageOf(from, most, page);
  }

  /** A page is newest first, then by hash, of at most 500 objects, each of them one that should be there. */
  lemma PageIsNewestFirst(objects: Objects, matches: Item -> bool, limit: nat, cursor: Option<Cursor>, page: Page)
    requires IsPage(objects, matches, limit, cursor, page)
    ensures |page.objects| <= 500 && (limit >= 1 ==> |page.objects| <= limit)
    ensures page.next.Some? ==> |page.objects| == if limit == 0 then 1 else if limit > 500 then 500 else limit
    ensures forall i, j :: 0 <= i < j < |page.objects| ==>
                             var a, b := page.objects[i], page.objects[j];
                             a.createdAt > b.createdAt || (a.createdAt == b.createdAt && Before(a.hash, b.hash))
    ensures forall i :: 0 <= i < |page.objects| ==> Shows(objects, matches, cursor, page.objects[i])
  {
    forall i | 0 <= i < |page.objects|
      ensures Shows(objects, matches, cursor, page.objects[i])
    {
      assert page.objects[i] in Elems(page.objects);
    }
    assert forall i, j :: 0 <= i < j < |page.objects| ==> Precedes(page.objects[i], page.objects[j]);
  }

  /** An object that the query matches, with its time: older than the cursor's, or as old and later by its hash. */
  predicate Shows(objects: Objects, matches: Item -> bool, cursor: Option<Cursor>, k: Key) {
    && k.hash in objects && k.createdAt == objects[k.hash].createdAt && matches(objects[k.hash])
    && (cursor.Some? ==>
          || k.createdAt < cursor.value.createdAt
          || (k.createdAt == cursor.value.createdAt && Before(cursor.value.hash, k.hash)))
  }

  /** A page holds the first of what is left: all of it, or a full page and the cursor to go on from. */
  ghost predicate PageOf(from: set<Key>, most: nat, page: Page) {
    && Leads(page.objects, from) && |page.objects| <= most
    && (page.next.None? <==> Elems(page.objects) == from)
    && (page.next.Some? ==>
          0 < |page.objects| == most && page.next.value == Print(page.objects[|page.objects| - 1]))
  }

  ghost predicate IsPage(objects: Objects, matches: Item -> bool, limit: nat, cursor: Option<Cursor>, page: Page) {
    PageOf(After(Matching(objects, matches), StartOf(cursor)), Clamp(limit, 1, MAX_LIMIT), page)
  }

  // ------------------------------------------------------------ following the pages

  /** The cursor the request for page `i` carries. */
  function CursorAt(pages: seq<Page>, i: nat): Option<Cursor>
    requires i <= |pages|
  {
    if i == 0 || pages[i - 1].next.None? then None else Parse(pages[i - 1].next.value)
  }

  /** Each row fits its columns. */
  predicate Fits(objects: Objects) {
    forall h :: h in objects ==> h != "" && I64_MIN <= objects[h].createdAt <= I64_MAX
  }

  /** Pages fetched one after another, each from the database as it then was, for as long as there is a cursor. */
  ghost predicate Following(dbs: seq<Objects>, matches: Item -> bool, limits: seq<nat>, pages: seq<Page>) {
    && |dbs| == |limits| == |pages| > 0
    && (forall i :: 0 <= i < |dbs| ==> Fits(dbs[i]))
    && (forall i :: 0 <= i < |pages| ==> IsPage(dbs[i], matches, limits[i], CursorAt(pages, i), pages[i]))
    && (forall i :: 0 <= i < |pages| - 1 ==> pages[i].next.Some?)
  }

  /** Followed to the last one. */
  ghost predicate Followed(dbs: seq<Objects>, matches: Item -> bool, limits: seq<nat>, pages: seq<Page>) {
    Following(dbs, matches, limits, pages) && pages[|pages| - 1].next.None?
  }

  /** All that the first `n` pages list. */
  function Shown(pages: seq<Page>, n: nat): seq<Key>
    requires n <= |pages|
  {
    if n == 0 then [] else Shown(pages, n - 1) + pages[n - 1].objects
  }

  ghost predicate AllAfter(s: seq<Key>, start: Key) {
    forall i :: 0 <= i < |s| ==> Precedes(start, s[i])
  }

  lemma PageFollows(db: Objects, matches: Item -> bool, limit: nat, cursor: Option<Cursor>, page: Page)
    requires IsPage(db, matches, limit, cursor, page)
    ensures Ordered(page.objects) && AllAfter(page.objects, StartOf(cursor))
  {
    forall k | 0 <= k < |page.objects|
      ensures Precedes(StartOf(cursor), page.objects[k])
    {
      assert page.objects[k] in Elems(page.objects);
    }
  }

  /** The next cursor is the key of the last object of the page. */
  lemma PageLeadsOn(db: Objects, matches: Item -> bool, limit: nat, cursor: Option<Cursor>, page: Page)
    requires IsPage(db, matches, limit, cursor, page) && Fits(db) && page.next.Some?
    ensures page.objects != [] && Parse(page.next.value) == Some(page.objects[|page.objects| - 1])
  {
    var last := page.objects[|page.objects| - 1];
    assert last in Elems(page.objects);
    assert last in Matching(db, matches);
    CursorRoundTrip(last);
  }

  /** What is ahead of a page's cursor is on the page, or ahead of the next. */
  lemma PageShows(db: Objects, matches: Item -> bool, limit: nat, cursor: Option<Cursor>, page: Page, key: Key)
    requires IsPage(db, matches, limit, cursor, page)
    requires key in Matching(db, matches) && Precedes(StartOf(cursor), key)
    ensures || key in page.objects
            || (page.next.Some? && page.objects != [] && Precedes(page.objects[|page.objects| - 1], key))
  {
    assert key in After(Matching(db, matches), StartOf(cursor));
    assert key in page.objects <==> key in Elems(page.objects);
  }

  /** The last object of the pages so far; before the first page, the key every listing starts after. */
  function LastShown(pages: seq<Page>, n: nat): Key
    requires n <= |pages|
  {
    if n == 0 || pages[n - 1].objects == [] then StartOf(None)
    else pages[n - 1].objects[|pages[n - 1].objects| - 1]
  }

  lemma CursorIsLast(dbs: seq<Objects>, matches: Item -> bool, limits: seq<nat>, pages: seq<Page>, n: nat)
    requires Following(dbs, matches, limits, pages) && n < |pages|
    ensures IsPage(dbs[n], matches, limits[n], CursorAt(pages, n), pages[n])
    ensures n > 0 ==> pages[n - 1].objects != []
    ensures StartOf(CursorAt(pages, n)) == LastShown(pages, n)
  {
    if n > 0 {
      PageLeadsOn(dbs[n - 1], matches, limits[n - 1], CursorAt(pages, n - 1), pages[n - 1]);
    }
  }

  /** After `n` pages: what is shown is in order and not past the cursor. */
  ghost predicate Behind(shown: seq<Key>, start: Key) {
    forall i :: 0 <= i < |shown| ==> shown[i] == start || Precedes(shown[i], start)
  }

  lemma OrderedJoin(a: seq<Key>, b: seq<Key>, start: Key)
    requires Ordered(a) && Ordered(b) && Behind(a, start) && AllAfter(b, start)
    ensures Ordered(a + b)
  {
    forall i, j | 0 <= i < |a| && 0 <= j < |b|
      ensures Precedes(a[i], b[j])
    {
      PrecedesIsOrder(a[i], start, b[j]);
    }
  }

  lemma BehindJoin(a: seq<Key>, b: seq<Key>, start: Key)
    requires Behind(a, start) && Ordered(b) && b != [] && AllAfter(b, start)
    ensures Behind(a + b, b[|b| - 1])
  {
    var last := b[|b| - 1];
    forall i | 0 <= i < |a|
      ensures Precedes(a[i], last)
    {
      PrecedesIsOrder(a[i], start, last);
    }
  }

  lemma PageJoins(shown: seq<Key>, objects: seq<Key>, start: Key)
    requires Ordered(shown) && Behind(shown, start) && Ordered(objects) && AllAfter(objects, start)
    ensures Ordered(shown + objects)
    ensures objects != [] ==> Behind(shown + objects, objects[|objects| - 1])
  {
    OrderedJoin(shown, objects, start);
    if objects != [] {
      BehindJoin(shown, objects, start);
    }
  }

  /** Page `i` goes on from the last object shown before it. */
  ghost predicate Links(pages: seq<Page>, i: nat)
    requires i < |pages|
  {
    && Ordered(pages[i].objects) && AllAfter(pages[i].objects, LastShown(pages, i))
    && (i < |pages| - 1 ==> pages[i].objects != [])
  }

  /** Page `i` shows a key that is ahead of it, or leaves it ahead of the next page. */
  ghost predicate Offers(pages: seq<Page>, i: nat, key: Key)
    requires i < |pages|
  {
    Precedes(LastShown(pages, i), key) ==>
      key in pages[i].objects || (i < |pages| - 1 && Precedes(LastShown(pages, i + 1), key))
  }

  lemma FollowingLinks(dbs: seq<Objects>, matches: Item -> bool, limits: seq<nat>, pages: seq<Page>, i: nat)
    requires Following(dbs, matches, limits, pages) && i < |pages|
    ensures Links(pages, i)
  {
    CursorIsLast(dbs, matches, limits, pages, i);
    PageFollows(dbs[i], matches, limits[i], CursorAt(pages, i), pages[i]);
    if i < |pages| - 1 {
      CursorIsLast(dbs, matches, limits, pages, i + 1);
    }
  }

  lemma FollowedOffers(dbs: seq<Objects>, matches: Item -> bool, limits: seq<nat>, pages: seq<Page>, i: nat, key: Key)
    requires Followed(dbs, matches, limits, pages) && i < |pages| && key in Matching(dbs[i], matches)
    ensures Offers(pages, i, key)
  {
    CursorIsLast(dbs, matches, limits, pages, i);
    if Precedes(LastShown(pages, i), key) {
      PageShows(dbs[i], matches, limits[i], CursorAt(pages, i), pages[i], key);
    }
  }

  lemma {:induction false} LinkedIsOrdered(pages: seq<Page>, n: nat)
    requires n <= |pages| && forall i :: 0 <= i < |pages| ==> Links(pages, i)
    ensures Ordered(Shown(pages, n))
    ensures n < |pages| ==> Behind(Shown(pages, n), LastShown(pages, n))
  {
    if n > 0 {
      LinkedIsOrdered(pages, n - 1);
      assert Links(pages, n - 1);
      PageJoins(Shown(pages, n - 1), pages[n - 1].objects, LastShown(pages, n - 1));
    }
  }

  /** A key ahead of the first page that every page offers is shown in the end. */
  lemma {:induction false} OfferedIsShown(pages: seq<Page>, n: nat, key: Key)
    requires n <= |pages| && pages != [] && Precedes(StartOf(None), key)
    requires forall i :: 0 <= i < |pages| ==> Offers(pages, i, key)
    ensures key in Shown(pages, n) || (n < |pages| && Precedes(LastShown(pages, n), key))
  {
    if n > 0 {
      OfferedIsShown(pages, n - 1, key);
      assert Offers(pages, n - 1, key);
    }
  }

  lemma ShownIsOrdered(dbs: seq<Objects>, matches: Item -> bool, limits: seq<nat>, pages: seq<Page>)
    requires Following(dbs, matches, limits, pages)
    ensures Ordered(Shown(pages, |pages|))
  {
    forall i | 0 <= i < |pages|
      ensures Links(pages, i)
    {
      FollowingLinks(dbs, matches, limits, pages, i);
    }
    LinkedIsOrdered(pages, |pages|);
  }

  /** A key that is there for every page is shown. */
  lemma StableIsShown(dbs: seq<Objects>, matches: Item -> bool, limits: seq<nat>, pages: seq<Page>, key: Key)
    requires Followed(dbs, matches, limits, pages)
    requires forall i :: 0 <= i < |dbs| ==> key in Matching(dbs[i], matches)
    ensures key in Shown(pages, |pages|)
  {
    assert key in Matching(dbs[0], matches) && Fits(dbs[0]);
    forall i | 0 <= i < |pages|
      ensures Offers(pages, i, key)
    {
      assert key in Matching(dbs[i], matches);
      FollowedOffers(dbs, matches, limits, pages, i, key);
    }
    OfferedIsShown(pages, |pages|, key);
  }

  lemma {:induction false} ShownWasThere(dbs: seq<Objects>, matches: Item -> bool, limits: seq<nat>,
                                         pages: seq<Page>, n: nat, key: Key)
    requires Following(dbs, matches, limits, pages) && n <= |pages| && key in Shown(pages, n)
    ensures exists i :: 0 <= i < n && key in Matching(dbs[i], matches)
  {
    var i := n - 1;
    assert IsPage(dbs[i], matches, limits[i], CursorAt(pages, i), pages[i]);
    if key in pages[i].objects {
      assert key in Elems(pages[i].objects);
    } else {
      ShownWasThere(dbs, matches, limits, pages, i, key);
    }
  }

  /**
   Whatever is pushed and deleted between the pages, and whatever their limits: an
   object that stays as it was is listed, once, and the whole listing is in strict order.
   */
  lemma StableIsListedOnce(dbs: seq<Objects>, matches: Item -> bool, limits: seq<nat>, pages: seq<Page>, key: Key)
    requires Followed(dbs, matches, limits, pages)
    requires forall i :: 0 <= i < |dbs| ==> key in Matching(dbs[i], matches)
    ensures var shown := Shown(pages, |pages|);
            Ordered(shown) && NoDup(shown) && key in shown
  {
    var shown := Shown(pages, |pages|);
    ShownIsOrdered(dbs, matches, limits, pages);
    StableIsShown(dbs, matches, limits, pages, key);
    OrderedIsDistinct(shown);
  }

  lemma OrderedIsDistinct(s: seq<Key>)
    requires Ordered(s)
    ensures NoDup(s)
  {
    forall i, j | 0 <= i < j < |s|
      ensures s[i] != s[j]
    {
      PrecedesIsOrder(s[i], s[j], s[j]);
    }
  }

  /** Over a database that stays as it is, the pages are together the whole sorted listing. */
  lemma FixedIsListedWhole(db: Objects, dbs: seq<Objects>, matches: Item -> bool, limits: seq<nat>, pages: seq<Page>)
    requires Followed(dbs, matches, limits, pages) && forall i :: 0 <= i < |dbs| ==> dbs[i] == db
    ensures Ordered(Shown(pages, |pages|)) && Elems(Shown(pages, |pages|)) == Matching(db, matches)
  {
    var shown := Shown(pages, |pages|);
    ShownIsOrdered(dbs, matches, limits, pages);
    forall key | key in Matching(db, matches)
      ensures key in shown
    {
      StableIsShown(dbs, matches, limits, pages, key);
    }
    forall key | key in shown
      ensures key in Matching(db, matches)
    {
      ShownWasThere(dbs, matches, limits, pages, |pages|, key);
    }
  }

  lemma NoElems(s: seq<Key>)
    ensures s != [] ==> Elems(s) != {}
  {
    if s != [] {
      assert s[0] in Elems(s);
    }
  }

  /** A sorted listing is determined by what it lists. */
  lemma {:induction false} ListingIsUnique(a: seq<Key>, b: seq<Key>)
    requires Ordered(a) && Ordered(b) && Elems(a) == Elems(b)
    ensures a == b
  {
    if a == [] || b == [] {
      NoElems(a);
      NoElems(b);
    } else {
      var x, y := a[0], b[0];
      assert x in Elems(b) && y in Elems(a);
      PrecedesIsOrder(x, y, y);
      assert x == y;
      OrderedIsDistinct(a);
      OrderedIsDistinct(b);
      assert Elems(a[1..]) == Elems(a) - {x} && Elems(b[1..]) == Elems(b) - {x};
      ListingIsUnique(a[1..], b[1..]);
    }
  }

  // ------------------------------------------------------------ the pages run out

  lemma {:induction false} ShownGrows(pages: seq<Page>, n: nat)
    requires n < |pages| && forall i :: 0 <= i < |pages| ==> Links(pages, i)
    ensures |Shown(pages, n)| >= n
  {
    if n > 0 {
      ShownGrows(pages, n - 1);
      assert Links(pages, n - 1);
    }
  }

  /** Over a database that stays as it is, following the cursors ends: there are no more pages than objects, and one. */
  lemma FollowingEnds(db: Objects, dbs: seq<Objects>, matches: Item -> bool, limits: seq<nat>, pages: seq<Page>)
    requires Following(dbs, matches, limits, pages) && forall i :: 0 <= i < |dbs| ==> dbs[i] == db
    ensures |pages| <= |Matching(db, matches)| + 1
  {
    var n := |pages| - 1;
    var shown := Shown(pages, n);
    forall i | 0 <= i < |pages|
      ensures Links(pages, i)
    {
      FollowingLinks(dbs, matches, limits, pages, i);
    }
    ShownGrows(pages, n);
    LinkedIsOrdered(pages, n);
    OrderedIsDistinct(shown);
    NoDupCount(shown);
    forall key | key in Elems(shown)
      ensures key in Matching(db, matches)
    {
      ShownWasThere(dbs, matches, limits, pages, n, key);
    }
    SubsetCount(Elems(shown), Matching(db, matches));
  }
}
