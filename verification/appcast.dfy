/** The release feed (tools/generate-appcast.py): numeric versions, the items of one
    publication, and the feed after any history of publications. */
module Appcast {
  import opened Wrappers
  import opened Lists
  import opened Text

  // ---------------------------------------------------------------- versions

  datatype Version = Version(major: nat, minor: nat, patch: nat)

  predicate Less(a: Version, b: Version) {
    || a.major < b.major
    || (a.major == b.major && a.minor < b.minor)
    || (a.major == b.major && a.minor == b.minor && a.patch < b.patch)
  }

  predicate IsDigit(c: char) {
    '0' <= c <= '9'
  }

  function DigitValue(c: char): nat
    requires IsDigit(c)
  {
    c as int - 48
  }

  predicate IsNumber(s: string) {
    s != [] && forall c :: c in s ==> IsDigit(c)
  }

  function ParseNumber(s: string): nat
    requires forall c :: c in s ==> IsDigit(c)
  {
    if s == [] then 0 else ParseNumber(s[..|s| - 1]) * 10 + DigitValue(s[|s| - 1])
  }

  /** One to three numeric components, padded with zeros. */
  function NumericVersion(text: string): Option<Version> {
    var parts := Split(text, '.');
    if |parts| > 3 || !Every(parts, IsNumber) then None
    else
      Some(Version(ParseNumber(parts[0]),
                   if |parts| > 1 then ParseNumber(parts[1]) else 0,
                   if |parts| > 2 then ParseNumber(parts[2]) else 0))
  }

  function Decimal(n: nat): (r: string)
    ensures r != [] && forall c :: c in r ==> IsDigit(c)
  {
    if n < 10 then [(48 + n) as char] else Decimal(n / 10) + [(48 + n % 10) as char]
  }

  lemma {:induction false} DecimalParses(n: nat)
    ensures ParseNumber(Decimal(n)) == n
  {
    if n >= 10 {
      DecimalParses(n / 10);
      assert Decimal(n)[..|Decimal(n)| - 1] == Decimal(n / 10);
    } else {
      assert Decimal(n)[..0] == [];
    }
  }

  // ------------------------------------------------------------------- items

  /** A feed item; `details` stands for its title, link, date, notes and requirements. */
  datatype Item = Item(
    version: Option<string>,
    enclosureVersion: Option<string>,
    url: string,
    signature: string,
    length: string,
    details: nat)

  /** The version element if it has text, else the enclosure's attribute. */
  function ItemVersion(item: Item): Option<string> {
    if item.version.Some? && item.version.value != "" then item.version else item.enclosureVersion
  }

  function VersionOf(item: Item): Option<Version> {
    match ItemVersion(item)
    case None => None
    case Some(text) => NumericVersion(text)
  }

  /** What is to be published. `signatureBytes` is how many bytes the signature decodes
      to, if it is valid base64. */
  datatype Release = Release(
    version: string,
    url: string,
    signature: string,
    signatureBytes: Option<nat>,
    length: int,
    details: nat)

  datatype ReleaseError =
    | InvalidSignature
    | EmptyImage
    | InvalidVersion
    | NotNewer
    | VersionReused

  function NewItem(release: Release): Item
    requires release.length > 0
  {
    Item(Some(release.version), None, release.url, release.signature, Decimal(release.length), release.details)
  }

  predicate SameDownload(item: Item, release: Release)
    requires release.length > 0
  {
    item.url == release.url && item.signature == release.signature && item.length == Decimal(release.length)
  }

  // ---------------------------------------------------------- one publication

  /** Checks one earlier item against the new version. */
  function CheckItem(item: Item, release: Release, current: Version): Result<Item, ReleaseError>
    requires release.length > 0
  {
    match VersionOf(item)
    case None => Err(InvalidVersion)
    case Some(earlier) =>
      if Less(current, earlier) then Err(NotNewer)
      else if earlier == current && !SameDownload(item, release) then Err(VersionReused)
      else Ok(item)
  }

  function Retain(previous: seq<Item>, release: Release, current: Version): (r: Result<seq<Item>, ReleaseError>)
    requires release.length > 0
    ensures r.Ok? ==> r.value == previous && forall i :: 0 <= i < |previous| ==> VersionOf(previous[i]).Some?
  {
    if previous == [] then Ok([])
    else
      match CheckItem(previous[0], release, current)
      case Err(error) => Err(error)
      case Ok(item) =>
        match Retain(previous[1..], release, current)
        case Err(error) => Err(error)
        case Ok(items) => Ok([item] + items)
  }

  predicate Versioned(items: seq<Item>) {
    forall i :: 0 <= i < |items| ==> VersionOf(items[i]).Some?
  }

  function IsVersion(version: Version): Item -> bool {
    item => VersionOf(item) == Some(version)
  }

  /** Stable insertion: in front of the first item that is not newer. */
  function Insert(item: Item, sorted: seq<Item>): (r: seq<Item>)
    requires VersionOf(item).Some? && Versioned(sorted)
    ensures Versioned(r)
  {
    if sorted == [] || !Less(VersionOf(item).value, VersionOf(sorted[0]).value) then [item] + sorted
    else [sorted[0]] + Insert(item, sorted[1..])
  }

  /** Newest first, items of equal versions in their given order. */
  function SortNewestFirst(items: seq<Item>): (r: seq<Item>)
    requires Versioned(items)
    ensures Versioned(r)
  {
    if items == [] then [] else Insert(items[0], SortNewestFirst(items[1..]))
  }

  function FeedLimit(): nat { 20 }

  function Newest(items: seq<Item>): seq<Item> {
    if |items| <= FeedLimit() then items else items[..FeedLimit()]
  }

  /** The items of the feed before it is cut to its limit. */
  function AllItems(release: Release, previous: seq<Item>): Result<seq<Item>, ReleaseError> {
    if release.signatureBytes != Some(64) then Err(InvalidSignature)
    else if release.length <= 0 then Err(EmptyImage)
    else
      match NumericVersion(release.version)
      case None => Err(InvalidVersion)
      case Some(current) =>
        match Retain(previous, release, current)
        case Err(error) => Err(error)
        case Ok(retained) =>
          assert NewItemVersioned(release, current) by { NewItemVersion(release, current); }
          Ok(SortNewestFirst(if Any(retained, IsVersion(current)) then retained else retained + [NewItem(release)]))
  }

  predicate NewItemVersioned(release: Release, current: Version) {
    release.length > 0 && VersionOf(NewItem(release)) == Some(current)
  }

  lemma NewItemVersion(release: Release, current: Version)
    requires release.length > 0 && NumericVersion(release.version) == Some(current)
    ensures NewItemVersioned(release, current)
  {
    NoEmptyVersion();
  }

  lemma NoEmptyVersion()
    ensures NumericVersion("").None?
  {
    SplitSingle("", '.');
    assert !IsNumber([""][0]);
  }

  function MakeAppcast(release: Release, previous: seq<Item>): Result<seq<Item>, ReleaseError> {
    match AllItems(release, previous)
    case Err(error) => Err(error)
    case Ok(items) => Ok(Newest(items))
  }

  // ---------------------------------------------------------------- the sort

  predicate NewestFirst(items: seq<Item>)
    requires Versioned(items)
  {
    forall i, j :: 0 <= i < j < |items| ==> !Less(VersionOf(items[i]).value, VersionOf(items[j]).value)
  }

  lemma {:induction false} InsertSorts(item: Item, sorted: seq<Item>)
    requires VersionOf(item).Some? && Versioned(sorted) && NewestFirst(sorted)
    ensures NewestFirst(Insert(item, sorted)) && multiset(Insert(item, sorted)) == multiset{item} + multiset(sorted)
  {
    hide VersionOf, Less;
    if sorted != [] {
      var rest := sorted[1..];
      assert sorted == [sorted[0]] + rest;
      assert forall i :: 0 <= i < |rest| ==> rest[i] == sorted[i + 1];
      if Less(VersionOf(item).value, VersionOf(sorted[0]).value) {
        InsertSorts(item, rest);
        var inserted := Insert(item, rest);
        forall j | 0 <= j < |inserted| ensures !Less(VersionOf(sorted[0]).value, VersionOf(inserted[j]).value) {
          assert inserted[j] in multiset(inserted);
          InsertedOrSorted(item, sorted, inserted[j]);
        }
        InFront(sorted[0], inserted);
      } else {
        NotOlder(item, sorted);
        InFront(item, sorted);
      }
    }
  }

  lemma NotOlder(item: Item, sorted: seq<Item>)
    requires VersionOf(item).Some? && Versioned(sorted) && NewestFirst(sorted) && sorted != []
    requires !Less(VersionOf(item).value, VersionOf(sorted[0]).value)
    ensures forall j :: 0 <= j < |sorted| ==> !Less(VersionOf(item).value, VersionOf(sorted[j]).value)
  {
    hide VersionOf, Less;
    forall j | 0 <= j < |sorted| ensures !Less(VersionOf(item).value, VersionOf(sorted[j]).value) {
      LessTransitive(VersionOf(item).value, VersionOf(sorted[j]).value, VersionOf(sorted[0]).value);
      LessTransitive(VersionOf(sorted[0]).value, VersionOf(item).value, VersionOf(sorted[j]).value);
    }
  }

  lemma InFront(item: Item, sorted: seq<Item>)
    requires VersionOf(item).Some? && Versioned(sorted) && NewestFirst(sorted)
    requires forall j :: 0 <= j < |sorted| ==> !Less(VersionOf(item).value, VersionOf(sorted[j]).value)
    ensures Versioned([item] + sorted) && NewestFirst([item] + sorted)
    ensures multiset([item] + sorted) == multiset{item} + multiset(sorted)
  {
    hide VersionOf, Less;
  }

  lemma InsertedOrSorted(item: Item, sorted: seq<Item>, other: Item)
    requires VersionOf(item).Some? && Versioned(sorted) && NewestFirst(sorted) && sorted != []
    requires other in multiset{item} + multiset(sorted[1..])
    requires Less(VersionOf(item).value, VersionOf(sorted[0]).value)
    ensures VersionOf(other).Some? && !Less(VersionOf(sorted[0]).value, VersionOf(other).value)
  {
    hide VersionOf;
    if other == item {
      LessTransitive(VersionOf(item).value, VersionOf(sorted[0]).value, VersionOf(item).value);
    } else {
      var k :| 0 <= k < |sorted[1..]| && sorted[1..][k] == other;
      assert sorted[k + 1] == other;
    }
  }

  /** The feed is ordered newest first and loses no item to the sort. */
  lemma {:induction false} SortSorts(items: seq<Item>)
    requires Versioned(items)
    ensures NewestFirst(SortNewestFirst(items)) && multiset(SortNewestFirst(items)) == multiset(items)
  {
    hide VersionOf, Less;
    if items != [] {
      SortSorts(items[1..]);
      InsertSorts(items[0], SortNewestFirst(items[1..]));
      assert items == [items[0]] + items[1..];
    }
  }

  // ---------------------------------------------------------------- the tool

  /** Earlier items are checked one by one and kept; a new version is added, and the
      newest items make the feed. */
  method GenerateAppcast(release: Release, previous: seq<Item>) returns (result: Result<seq<Item>, ReleaseError>)
    ensures result == MakeAppcast(release, previous)
  {
    hide VersionOf, NumericVersion, Less, SortNewestFirst, Decimal;
    if release.signatureBytes != Some(64) {
      return Err(InvalidSignature);
    }
    if release.length <= 0 {
      return Err(EmptyImage);
    }
    var version := NumericVersion(release.version);
    if version.None? {
      return Err(InvalidVersion);
    }
    var current := version.value;
    var retained: seq<Item> := [];
    var i := 0;
    assert previous[0..] == previous;
    while i < |previous|
      invariant 0 <= i <= |previous| && retained == previous[..i] && Versioned(retained)
      invariant RetainFrom(previous, i, release, current)
    {
      RetainNext(previous, i, release, current);
      var item := previous[i];
      var earlier := VersionOf(item);
      if earlier.None? {
        return Err(InvalidVersion);
      }
      if Less(current, earlier.value) {
        return Err(NotNewer);
      }
      if earlier.value == current && !SameDownload(item, release) {
        return Err(VersionReused);
      }
      retained := retained + [item];
      i := i + 1;
    }
    RetainDone(previous, release, current);
    var known := false;
    i := 0;
    while i < |retained| && !known
      invariant 0 <= i <= |retained|
      invariant known ==> Any(retained, IsVersion(current))
      invariant !known ==> forall k :: 0 <= k < i ==> VersionOf(retained[k]) != Some(current)
    {
      if VersionOf(retained[i]) == Some(current) {
        assert IsVersion(current)(retained[i]);
        known := true;
      }
      i := i + 1;
    }
    NewItemVersion(release, current);
    if !known {
      retained := retained + [NewItem(release)];
    }
    retained := SortNewestFirst(retained);
    result := Ok(if |retained| > FeedLimit() then retained[..FeedLimit()] else retained);
  }

  /** The checks of the items before `i` passed. */
  predicate RetainFrom(previous: seq<Item>, i: nat, release: Release, current: Version)
    requires i <= |previous| && release.length > 0
  {
    var rest := Retain(previous[i..], release, current);
    Retain(previous, release, current) == if rest.Err? then rest else Ok(previous)
  }

  lemma RetainNext(previous: seq<Item>, i: nat, release: Release, current: Version)
    requires i < |previous| && release.length > 0 && RetainFrom(previous, i, release, current)
    ensures var checked := CheckItem(previous[i], release, current);
            if checked.Err? then Retain(previous, release, current) == Err(checked.error)
            else RetainFrom(previous, i + 1, release, current)
  {
    hide CheckItem;
    assert previous[i..][1..] == previous[i + 1..];
  }

  lemma RetainDone(previous: seq<Item>, release: Release, current: Version)
    requires release.length > 0 && RetainFrom(previous, |previous|, release, current)
    ensures Retain(previous, release, current) == Ok(previous) && previous[..|previous|] == previous
  {}

  // ----------------------------------------------------------------- history

  /** A feed, or the untruncated list of everything ever in it, and the releases that
      were published. */
  datatype History = History(feed: seq<Item>, published: seq<Release>)

  /** A run with the feed of the run before; a refused release changes nothing. */
  function Publish(h: History, release: Release): History {
    match MakeAppcast(release, h.feed)
    case Err(_) => h
    case Ok(feed) => History(feed, h.published + [release])
  }

  function Publications(releases: seq<Release>): History {
    if releases == [] then History([], [])
    else Publish(Publications(releases[..|releases| - 1]), releases[|releases| - 1])
  }

  /** The same history with a feed that is never cut. */
  function PublishUncut(h: History, release: Release): History {
    match AllItems(release, h.feed)
    case Err(_) => h
    case Ok(items) => History(items, h.published + [release])
  }

  function Uncut(releases: seq<Release>): History {
    if releases == [] then History([], [])
    else PublishUncut(Uncut(releases[..|releases| - 1]), releases[|releases| - 1])
  }

  // ------------------------------------------------------ a publication's effect

  /** Newest first, each version once. */
  predicate Descending(items: seq<Item>) {
    && Versioned(items)
    && forall i, j :: 0 <= i < j < |items| ==> Less(VersionOf(items[j]).value, VersionOf(items[i]).value)
  }

  lemma LessTransitive(a: Version, b: Version, c: Version)
    ensures Less(a, b) && Less(b, c) ==> Less(a, c)
    ensures !Less(a, a) && (Less(a, b) ==> !Less(b, a) && a != b) && (Less(a, b) || a == b || Less(b, a))
  {}

  lemma {:induction false} SortedStays(items: seq<Item>)
    requires Descending(items)
    ensures SortNewestFirst(items) == items
  {
    hide Less, VersionOf;
    if items != [] {
      var rest := items[1..];
      assert Descending(rest) by { assert forall i :: 0 <= i < |rest| ==> rest[i] == items[i + 1]; }
      SortedStays(rest);
      if rest != [] {
        assert Less(VersionOf(items[1]).value, VersionOf(items[0]).value);
        LessTransitive(VersionOf(items[1]).value, VersionOf(items[0]).value, VersionOf(items[0]).value);
      }
    }
  }

  lemma InsertSecond(item: Item, first: Item, rest: seq<Item>)
    requires VersionOf(item).Some? && VersionOf(first).Some? && Versioned([first] + rest)
    requires Less(VersionOf(item).value, VersionOf(first).value)
    ensures Versioned(rest) && Insert(item, [first] + rest) == [first] + Insert(item, rest)
  {
    assert ([first] + rest)[1..] == rest && ([first] + rest)[0] == first;
    assert forall i :: 0 <= i < |rest| ==> rest[i] == ([first] + rest)[i + 1];
  }

  /** Sorting moves a newest item from the end to the front. */
  lemma {:induction false} NewestToFront(items: seq<Item>, item: Item)
    requires Descending(items) && VersionOf(item).Some?
    requires forall i :: 0 <= i < |items| ==> Less(VersionOf(items[i]).value, VersionOf(item).value)
    ensures Versioned(items + [item]) && SortNewestFirst(items + [item]) == [item] + items
  {
    hide Less, VersionOf;
    var all := items + [item];
    if items == [] {
      assert all == [item] && all[1..] == [];
    } else {
      var rest := items[1..];
      assert Descending(rest) by { assert forall i :: 0 <= i < |rest| ==> rest[i] == items[i + 1]; }
      assert all[1..] == rest + [item];
      NewestToFront(rest, item);
      InsertSecond(items[0], item, rest);
      SortedStays(items);
      assert SortNewestFirst(items) == Insert(items[0], SortNewestFirst(rest));
      SortedStays(rest);
    }
  }

  /** Whether and how a release can be published on a feed that starts with `head`. */
  predicate MayPublish(release: Release, head: Option<Item>) {
    && release.signatureBytes == Some(64) && release.length > 0 && NumericVersion(release.version).Some?
    && (head.Some? ==>
          && VersionOf(head.value).Some?
          && var current, newest := NumericVersion(release.version).value, VersionOf(head.value).value;
             Less(newest, current) || (newest == current && SameDownload(head.value, release)))
  }

  function Head(feed: seq<Item>): Option<Item> {
    if feed == [] then None else Some(feed[0])
  }

  predicate RetainsAll(previous: seq<Item>, release: Release, current: Version)
    requires release.length > 0
  {
    forall i :: 0 <= i < |previous| ==> CheckItem(previous[i], release, current).Ok?
  }

  lemma {:induction false} RetainIff(previous: seq<Item>, release: Release, current: Version)
    requires release.length > 0
    ensures Retain(previous, release, current).Ok? <==> RetainsAll(previous, release, current)
  {
    hide CheckItem;
    if previous != [] {
      RetainIff(previous[1..], release, current);
      assert forall i :: 0 <= i < |previous[1..]| ==> previous[1..][i] == previous[i + 1];
      assert forall i :: 0 < i < |previous| ==> previous[i] == previous[1..][i - 1];
    }
  }

  /** On a sorted feed the head decides. */
  lemma HeadDecides(previous: seq<Item>, release: Release, current: Version)
    requires Descending(previous) && release.length > 0 && previous != []
    ensures RetainsAll(previous, release, current) <==> CheckItem(previous[0], release, current).Ok?
  {
    if CheckItem(previous[0], release, current).Ok? {
      var newest := VersionOf(previous[0]).value;
      LessTransitive(newest, current, newest);
      forall i | 0 <= i < |previous| ensures CheckItem(previous[i], release, current).Ok? {
        if i > 0 {
          var version := VersionOf(previous[i]).value;
          LessTransitive(version, newest, current);
          LessTransitive(current, version, current);
        }
      }
    }
  }

  /** A publication on a sorted feed: refused unless it is newer than the head or repeats
      it; then it is put in front, or changes nothing. */
  lemma {:induction false} PublicationIff(release: Release, previous: seq<Item>)
    requires Descending(previous)
    ensures AllItems(release, previous).Ok? <==> MayPublish(release, Head(previous))
    ensures MayPublish(release, Head(previous)) ==>
              AllItems(release, previous).value
              == if previous != [] && VersionOf(previous[0]) == NumericVersion(release.version) then previous
                 else [NewItem(release)] + previous
  {
    hide Less, VersionOf, NumericVersion, SortNewestFirst, Decimal;
    if release.signatureBytes == Some(64) && release.length > 0 && NumericVersion(release.version).Some? {
      var current := NumericVersion(release.version).value;
      RetainIff(previous, release, current);
      NewItemVersion(release, current);
      if previous != [] {
        HeadDecides(previous, release, current);
        HeadCheck(previous[0], release, current);
      }
      if RetainsAll(previous, release, current) {
        PublishedItems(release, previous, current);
      }
    }
  }

  lemma HeadCheck(head: Item, release: Release, current: Version)
    requires release.length > 0 && VersionOf(head).Some?
    ensures CheckItem(head, release, current).Ok? <==>
              Less(VersionOf(head).value, current) || (VersionOf(head).value == current && SameDownload(head, release))
  {
    LessTransitive(VersionOf(head).value, current, current);
  }

  lemma PublishedItems(release: Release, previous: seq<Item>, current: Version)
    requires Descending(previous) && release.length > 0 && NewItemVersioned(release, current)
    requires RetainsAll(previous, release, current)
    ensures var all := if Any(previous, IsVersion(current)) then previous else previous + [NewItem(release)];
            && Versioned(all)
            && SortNewestFirst(all) == if previous != [] && VersionOf(previous[0]) == Some(current) then previous
                                       else [NewItem(release)] + previous
  {
    hide VersionOf, SortNewestFirst, Decimal, NumericVersion;
    if previous != [] && VersionOf(previous[0]) == Some(current) {
      assert IsVersion(current)(previous[0]);
      SortedStays(previous);
    } else {
      forall i | 0 <= i < |previous| ensures Less(VersionOf(previous[i]).value, current) {
        OlderThanCurrent(previous, release, current, i);
      }
      assert !Any(previous, IsVersion(current));
      NewestToFront(previous, NewItem(release));
    }
  }

  lemma OlderThanCurrent(previous: seq<Item>, release: Release, current: Version, i: nat)
    requires Descending(previous) && release.length > 0 && RetainsAll(previous, release, current) && i < |previous|
    requires VersionOf(previous[0]) != Some(current)
    ensures Less(VersionOf(previous[i]).value, current)
  {
    var newest, version := VersionOf(previous[0]).value, VersionOf(previous[i]).value;
    assert CheckItem(previous[0], release, current).Ok?;
    LessTransitive(newest, current, current);
    LessTransitive(version, newest, current);
  }
}
