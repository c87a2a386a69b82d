/** Versions as texts: which texts are versions, which numbers they spell, and what that
    means for the acceptance of a release (tools/generate-appcast.py). */
module AppcastVersions {
  import opened Wrappers
  import opened Lists
  import opened Text
  import opened Appcast
  import opened AppcastHistory

  // ------------------------------------------------------ digits and numbers

  function Zeros(n: nat): string {
    seq(n, _ => '0')
  }

  lemma DigitOf(c: char)
    requires IsDigit(c)
    ensures (48 + DigitValue(c)) as char == c && DigitValue(c) < 10
  {}

  lemma DecimalAppend(n: nat, c: char)
    requires IsDigit(c)
    ensures Decimal(n * 10 + DigitValue(c)) == (if n == 0 then [] else Decimal(n)) + [c]
  {
    hide IsDigit, DigitValue;
    DigitOf(c);
    var m := n * 10 + DigitValue(c);
    assert m / 10 == n && m % 10 == DigitValue(c);
  }

  /** A run of digits is its number's decimal form with zeros in front. */
  lemma {:induction false} DigitsAreDecimal(s: string)
    requires IsNumber(s)
    ensures var d := Decimal(ParseNumber(s));
            |d| <= |s| && s == Zeros(|s| - |d|) + d
  {
    hide Decimal, DigitValue;
    var front, last := s[..|s| - 1], s[|s| - 1];
    assert s == front + [last];
    var n := ParseNumber(front);
    DecimalAppend(n, last);
    if front != [] {
      DigitsAreDecimal(front);
      if n == 0 {
        ZeroDecimal();
        assert front == Zeros(|front|);
      }
    }
  }

  lemma ZeroDecimal()
    ensures Decimal(0) == ['0']
  {}

  /** The number that digits spell is the one whose decimal form they are. */
  lemma {:induction false} ZerosDoNotCount(k: nat, n: nat)
    ensures IsNumber(Zeros(k) + Decimal(n)) && ParseNumber(Zeros(k) + Decimal(n)) == n
  {
    var s := Zeros(k) + Decimal(n);
    DigitsAreDecimal(s);
    DecimalParses(n);
    NumberBehindZeros(k, Decimal(n));
  }

  lemma {:induction false} NumberBehindZeros(k: nat, digits: string)
    requires forall c :: c in digits ==> IsDigit(c)
    ensures forall c :: c in Zeros(k) + digits ==> IsDigit(c)
    ensures ParseNumber(Zeros(k) + digits) == ParseNumber(digits)
    decreases |digits|, k
  {
    var s := Zeros(k) + digits;
    if digits != [] {
      assert s[..|s| - 1] == Zeros(k) + digits[..|digits| - 1];
      NumberBehindZeros(k, digits[..|digits| - 1]);
    } else if k > 0 {
      assert s[..|s| - 1] == Zeros(k - 1) + [];
      NumberBehindZeros(k - 1, []);
    } else {
      assert s == [];
    }
  }

  // ------------------------------------------------------------ version texts

  /** The text is one to three runs of digits with dots between them; a run that is
      missing counts as zero. */
  ghost predicate Spells(text: string, v: Version) {
    || (IsNumber(text) && v == Version(ParseNumber(text), 0, 0))
    || (exists p, q :: SpellsTwo(text, v, p, q))
    || (exists p, q, r :: SpellsThree(text, v, p, q, r))
  }

  predicate SpellsTwo(text: string, v: Version, p: string, q: string) {
    && IsNumber(p) && IsNumber(q) && text == p + "." + q
    && v == Version(ParseNumber(p), ParseNumber(q), 0)
  }

  predicate SpellsThree(text: string, v: Version, p: string, q: string, r: string) {
    && IsNumber(p) && IsNumber(q) && IsNumber(r) && text == p + "." + q + "." + r
    && v == Version(ParseNumber(p), ParseNumber(q), ParseNumber(r))
  }

  lemma NoDot(s: string)
    requires IsNumber(s)
    ensures '.' !in s
  {}

  lemma OnePart(p: string)
    requires IsNumber(p)
    ensures NumericVersion(p) == Some(Version(ParseNumber(p), 0, 0))
  {
    NoDot(p);
    SplitSingle(p, '.');
  }

  lemma TwoParts(p: string, q: string)
    requires IsNumber(p) && IsNumber(q)
    ensures NumericVersion(p + "." + q) == Some(Version(ParseNumber(p), ParseNumber(q), 0))
  {
    hide IsNumber, ParseNumber, Split;
    NoDot(p);
    NoDot(q);
    SplitSingle(p, '.');
    SplitSingle(q, '.');
    SplitAppend(p, q, '.');
    assert p + "." + q == p + ['.'] + q && Split(p + "." + q, '.') == [p, q];
  }

  lemma ThreeParts(p: string, q: string, r: string)
    requires IsNumber(p) && IsNumber(q) && IsNumber(r)
    ensures NumericVersion(p + "." + q + "." + r) == Some(Version(ParseNumber(p), ParseNumber(q), ParseNumber(r)))
  {
    hide IsNumber, ParseNumber, Split;
    NoDot(p);
    NoDot(q);
    NoDot(r);
    SplitSingle(p, '.');
    SplitSingle(q, '.');
    SplitSingle(r, '.');
    SplitAppend(q, r, '.');
    SplitAppend(p, q + "." + r, '.');
    assert q + "." + r == q + ['.'] + r && p + "." + q + "." + r == p + ['.'] + (q + "." + r);
    assert Split(p + "." + q + "." + r, '.') == [p] + ([q] + [r]) == [p, q, r];
  }

  lemma JoinTwo(parts: seq<string>)
    requires |parts| == 2
    ensures Join(parts, '.') == parts[0] + "." + parts[1]
  {
    assert parts[1..] == [parts[1]];
  }

  lemma JoinThree(parts: seq<string>)
    requires |parts| == 3
    ensures Join(parts, '.') == parts[0] + "." + parts[1] + "." + parts[2]
  {
    JoinTwo(parts[1..]);
    assert parts[0] + ['.'] + (parts[1] + "." + parts[2]) == parts[0] + "." + parts[1] + "." + parts[2];
  }

  lemma VersionSpelled(text: string)
    requires NumericVersion(text).Some?
    ensures Spells(text, NumericVersion(text).value)
  {
    hide ParseNumber, Split;
    var parts, v := Split(text, '.'), NumericVersion(text).value;
    SplitParts(text, '.');
    if |parts| == 1 {
      assert text == parts[0];
    } else if |parts| == 2 {
      JoinTwo(parts);
      assert SpellsTwo(text, v, parts[0], parts[1]);
    } else {
      JoinThree(parts);
      assert SpellsThree(text, v, parts[0], parts[1], parts[2]);
    }
  }

  /** A text is read as a version iff it is one to three runs of digits with dots between
      them, and it is then the version it spells, from left to right. */
  lemma {:induction false} VersionTextIff(text: string, v: Version)
    ensures NumericVersion(text) == Some(v) <==> Spells(text, v)
  {
    hide NumericVersion, ParseNumber;
    if Spells(text, v) {
      if IsNumber(text) && v == Version(ParseNumber(text), 0, 0) {
        OnePart(text);
      } else if p, q :| SpellsTwo(text, v, p, q) {
        TwoParts(p, q);
      } else {
        var p, q, r :| SpellsThree(text, v, p, q, r);
        ThreeParts(p, q, r);
      }
    } else if NumericVersion(text) == Some(v) {
      VersionSpelled(text);
    }
  }

  /** Numbers written out and joined by dots are read back. */
  lemma {:induction false} DecimalsRead(a: nat, b: nat, c: nat)
    ensures NumericVersion(Decimal(a)) == Some(Version(a, 0, 0))
    ensures NumericVersion(Decimal(a) + "." + Decimal(b)) == Some(Version(a, b, 0))
    ensures NumericVersion(Decimal(a) + "." + Decimal(b) + "." + Decimal(c)) == Some(Version(a, b, c))
  {
    hide NumericVersion, Decimal, ParseNumber;
    DecimalParses(a);
    DecimalParses(b);
    DecimalParses(c);
    OnePart(Decimal(a));
    TwoParts(Decimal(a), Decimal(b));
    ThreeParts(Decimal(a), Decimal(b), Decimal(c));
  }

  // -------------------------------------------------- acceptance by the numbers

  /** The first difference from the left decides. */
  predicate LexicographicallyLess(a: Version, b: Version) {
    if a.major != b.major then a.major < b.major
    else if a.minor != b.minor then a.minor < b.minor
    else a.patch < b.patch
  }

  predicate SameBytes(a: Release, b: Release) {
    a.url == b.url && a.signature == b.signature && a.length == b.length
  }

  /** What acceptance asks of a release with version `v` and of one published before. */
  ghost predicate Permits(published: Release, release: Release, v: Version) {
    exists u :: Spells(published.version, u) && (LexicographicallyLess(u, v) || (u == v && SameBytes(release, published)))
  }

  /** A release whose version text spells three numbers is accepted iff every release
      published so far spells a version that is smaller, compared number by number from
      the left, or the same version with the same download. */
  lemma {:induction false} AcceptedByNumbers(releases: seq<Release>, r: Release, v: Version)
    requires r.signatureBytes == Some(64) && r.length > 0 && Spells(r.version, v)
    ensures var h := Publications(releases);
            MakeAppcast(r, h.feed).Ok? <==> forall q :: q in h.published ==> Permits(q, r, v)
  {
    hide NumericVersion, MakeAppcast, Publications, Spells;
    VersionTextIff(r.version, v);
    AcceptedIff(releases, r);
    forall q ensures IsNewerThan(r, q) || Repeats(r, q) <==> Permits(q, r, v) {
      PermitsIff(q, r, v);
    }
  }

  lemma SortedFeed(releases: seq<Release>)
    ensures var feed := Publications(releases).feed;
            Descending(feed) && |feed| <= 20
  {
    FeedIsNewest(releases);
    NewestDescends(Uncut(releases).feed);
  }

  /** What an accepted release makes of the feed: one that repeats the head leaves it as
      it is, and any other is the new head, of which the oldest items beyond twenty go. */
  lemma {:induction false} FeedAfter(releases: seq<Release>, r: Release)
    requires MakeAppcast(r, Publications(releases).feed).Ok?
    ensures var feed := Publications(releases).feed;
            var head := Item(Some(r.version), None, r.url, r.signature, Decimal(r.length), r.details);
            MakeAppcast(r, feed).value
            == if feed != [] && VersionOf(feed[0]) == NumericVersion(r.version) then feed
               else [head] + if |feed| < 20 then feed else feed[..19]
  {
    hide VersionOf, NumericVersion, Publications, AllItems, MayPublish, Descending, Decimal;
    var feed := Publications(releases).feed;
    SortedFeed(releases);
    PublicationIff(r, feed);
    PublishableLength(r, Head(feed));
  }

  lemma PublishableLength(r: Release, head: Option<Item>)
    requires MayPublish(r, head)
    ensures r.length > 0
  {
    hide NumericVersion, VersionOf, SameDownload;
  }

  /** Why a release is refused, if it is: the first reason that holds. */
  ghost function Refusal(feed: seq<Item>, r: Release): Option<ReleaseError> {
    if r.signatureBytes != Some(64) then Some(InvalidSignature)
    else if r.length <= 0 then Some(EmptyImage)
    else if !exists v :: Spells(r.version, v) then Some(InvalidVersion)
    else if feed == [] then None
    else
      var v :| Spells(r.version, v);
      var newest := VersionOf(feed[0]);
      if newest.Some? && LexicographicallyLess(v, newest.value) then Some(NotNewer)
      else if newest == Some(v) && !(feed[0].url == r.url && feed[0].signature == r.signature && feed[0].length == Decimal(r.length)) then
        Some(VersionReused)
      else None
  }

  /** Every refusal names its first reason, on every feed a history can lead to. */
  lemma {:induction false} RefusedFor(releases: seq<Release>, r: Release)
    ensures var feed := Publications(releases).feed;
            MakeAppcast(r, feed).Err? <==> Refusal(feed, r).Some?
    ensures var feed := Publications(releases).feed;
            MakeAppcast(r, feed).Err? ==> MakeAppcast(r, feed) == Err(Refusal(feed, r).value)
  {
    hide VersionOf, NumericVersion, Publications, Spells, Retain, SortNewestFirst, Decimal;
    var feed := Publications(releases).feed;
    SortedFeed(releases);
    forall v ensures NumericVersion(r.version) == Some(v) <==> Spells(r.version, v) {
      VersionTextIff(r.version, v);
    }
    if r.signatureBytes == Some(64) && r.length > 0 && NumericVersion(r.version).Some? {
      var v := NumericVersion(r.version).value;
      assert Spells(r.version, v);
      RetainResult(feed, r, v);
    }
  }

  /** On a sorted feed the head decides how the earlier items are judged. */
  lemma RetainResult(feed: seq<Item>, r: Release, v: Version)
    requires Descending(feed) && r.length > 0
    ensures Retain(feed, r, v).Err? <==> feed != [] && CheckItem(feed[0], r, v).Err?
    ensures feed != [] && CheckItem(feed[0], r, v).Err? ==>
              Retain(feed, r, v).Err? && Retain(feed, r, v).error == CheckItem(feed[0], r, v).error
  {
    hide CheckItem, Descending;
    RetainIff(feed, r, v);
    if feed != [] {
      HeadDecides(feed, r, v);
    }
  }

  // ------------------------------------------------- where versions are written

  /** The item with its version in the element only: an element with text counts, and
      otherwise the enclosure's attribute does. */
  function InElement(item: Item): Item {
    if item.version.Some? && item.version.value != "" then item.(enclosureVersion := None)
    else item.(version := item.enclosureVersion, enclosureVersion := None)
  }

  function AllInElement(items: seq<Item>): (r: seq<Item>)
    ensures |r| == |items| && forall i :: 0 <= i < |items| ==> r[i] == InElement(items[i])
  {
    if items == [] then [] else [InElement(items[0])] + AllInElement(items[1..])
  }

  lemma InElementVersion(item: Item)
    ensures VersionOf(InElement(item)) == VersionOf(item)
  {
    NoEmptyVersion();
  }

  /** For any earlier feed it makes no difference to acceptance where versions are
      written. */
  lemma {:induction false} PlaceIsInert(r: Release, previous: seq<Item>)
    ensures MakeAppcast(r, AllInElement(previous)).Ok? <==> MakeAppcast(r, previous).Ok?
  {
    hide NumericVersion, RetainsAll, Retain, SortNewestFirst, AllInElement;
    if r.signatureBytes == Some(64) && r.length > 0 && NumericVersion(r.version).Some? {
      var v := NumericVersion(r.version).value;
      RetainIff(previous, r, v);
      RetainIff(AllInElement(previous), r, v);
      RetainedAlike(r, previous, v);
    }
  }

  lemma RetainedAlike(r: Release, previous: seq<Item>, v: Version)
    requires r.length > 0
    ensures RetainsAll(AllInElement(previous), r, v) <==> RetainsAll(previous, r, v)
  {
    hide CheckItem;
    forall i | 0 <= i < |previous| ensures CheckItem(InElement(previous[i]), r, v).Ok? <==> CheckItem(previous[i], r, v).Ok? {
      CheckedAlike(r, previous[i], v);
    }
  }

  lemma CheckedAlike(r: Release, item: Item, v: Version)
    requires r.length > 0
    ensures CheckItem(InElement(item), r, v).Ok? <==> CheckItem(item, r, v).Ok?
  {
    hide VersionOf, Decimal, Less;
    InElementVersion(item);
  }

  lemma PermitsIff(q: Release, r: Release, v: Version)
    requires NumericVersion(r.version) == Some(v)
    ensures IsNewerThan(r, q) || Repeats(r, q) <==> Permits(q, r, v)
  {
    hide NumericVersion, Spells;
    forall u ensures NumericVersion(q.version) == Some(u) <==> Spells(q.version, u) {
      VersionTextIff(q.version, u);
    }
  }
}
