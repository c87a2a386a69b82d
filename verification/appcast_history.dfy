/** What the feed guarantees over every history of publications, however often it is cut
    to its twenty newest items. */
module AppcastHistory {
  import opened Wrappers
  import opened Lists
  import opened Text
  import opened Appcast

  // ------------------------------------------------------------ cutting the feed

  lemma NewestDescends(items: seq<Item>)
    requires Descending(items)
    ensures Descending(Newest(items)) && Head(Newest(items)) == Head(items)
  {
    hide VersionOf, Less;
  }

  lemma NewestTwice(items: seq<Item>, item: Item)
    ensures Newest(Newest(items)) == Newest(items)
    ensures Newest([item] + Newest(items)) == Newest([item] + items)
  {}

  lemma NewItemFits(release: Release, previous: seq<Item>)
    requires Descending(previous) && MayPublish(release, Head(previous))
    requires previous == [] || VersionOf(previous[0]) != NumericVersion(release.version)
    ensures Descending([NewItem(release)] + previous)
  {
    hide VersionOf, Less, NumericVersion;
    var current := NumericVersion(release.version).value;
    var all := [NewItem(release)] + previous;
    NewItemVersion(release, current);
    forall i, j | 0 <= i < j < |all| ensures Versioned(all) && Less(VersionOf(all[j]).value, VersionOf(all[i]).value) {
      assert all[j] == previous[j - 1];
      if i == 0 {
        LessTransitive(VersionOf(all[j]).value, VersionOf(previous[0]).value, current);
      } else {
        assert all[i] == previous[i - 1];
      }
    }
  }

  /** Cutting the feed changes neither which releases are accepted nor what the cut feed
      becomes. */
  lemma CutStep(release: Release, items: seq<Item>)
    requires Descending(items)
    ensures AllItems(release, items).Ok? <==> MakeAppcast(release, Newest(items)).Ok?
    ensures AllItems(release, items).Ok? ==>
              && MakeAppcast(release, Newest(items)).value == Newest(AllItems(release, items).value)
              && Descending(AllItems(release, items).value)
  {
    hide AllItems, VersionOf, NumericVersion, Newest, Less;
    NewestDescends(items);
    PublicationIff(release, items);
    PublicationIff(release, Newest(items));
    if MayPublish(release, Head(items)) {
      NewestTwice(items, NewItem(release));
      if items == [] || VersionOf(items[0]) != NumericVersion(release.version) {
        NewItemFits(release, items);
      }
    }
  }

  /** The feed is always the newest twenty items of the one that is never cut. */
  lemma {:induction false} FeedIsNewest(releases: seq<Release>)
    ensures Publications(releases).feed == Newest(Uncut(releases).feed)
    ensures Publications(releases).published == Uncut(releases).published && Descending(Uncut(releases).feed)
  {
    hide AllItems, MakeAppcast, VersionOf, NumericVersion, Less;
    if releases != [] {
      FeedIsNewest(releases[..|releases| - 1]);
      CutStep(releases[|releases| - 1], Uncut(releases[..|releases| - 1]).feed);
    }
  }

  // -------------------------------------------------------- what was published

  predicate IsItemOf(item: Item, release: Release) {
    release.length > 0 && VersionOf(item).Some? && VersionOf(item) == NumericVersion(release.version) && SameDownload(item, release)
  }

  predicate HasItem(feed: seq<Item>, release: Release) {
    exists i :: 0 <= i < |feed| && IsItemOf(feed[i], release)
  }

  predicate HasRelease(published: seq<Release>, item: Item) {
    exists k :: 0 <= k < |published| && IsItemOf(item, published[k])
  }

  /** The feed's items and the published releases correspond. */
  predicate Corresponds(feed: seq<Item>, published: seq<Release>) {
    && (forall k :: 0 <= k < |published| ==> HasItem(feed, published[k]))
    && (forall i :: 0 <= i < |feed| ==> HasRelease(published, feed[i]))
  }

  lemma ItemOf(feed: seq<Item>, published: seq<Release>, release: Release) returns (i: nat)
    requires Corresponds(feed, published) && release in published
    ensures i < |feed| && IsItemOf(feed[i], release)
  {
    hide IsItemOf;
    var k :| 0 <= k < |published| && published[k] == release;
    assert HasItem(feed, published[k]);
    i :| 0 <= i < |feed| && IsItemOf(feed[i], release);
  }

  lemma ReleaseOf(feed: seq<Item>, published: seq<Release>, i: nat) returns (release: Release)
    requires Corresponds(feed, published) && i < |feed|
    ensures release in published && IsItemOf(feed[i], release)
  {
    hide IsItemOf;
    assert HasRelease(published, feed[i]);
    var k :| 0 <= k < |published| && IsItemOf(feed[i], published[k]);
    release := published[k];
  }

  lemma ItemInFront(feed: seq<Item>, item: Item, release: Release)
    requires HasItem(feed, release)
    ensures HasItem([item] + feed, release)
  {
    hide IsItemOf;
    var i :| 0 <= i < |feed| && IsItemOf(feed[i], release);
    assert ([item] + feed)[i + 1] == feed[i];
  }

  lemma ReleaseBehind(published: seq<Release>, release: Release, item: Item)
    requires HasRelease(published, item) || IsItemOf(item, release)
    ensures HasRelease(published + [release], item)
  {
    hide IsItemOf;
    var published' := published + [release];
    if HasRelease(published, item) {
      var k :| 0 <= k < |published| && IsItemOf(item, published[k]);
      assert published'[k] == published[k];
    } else {
      assert published'[|published|] == release;
    }
  }

  lemma CorrespondsInFront(feed: seq<Item>, published: seq<Release>, item: Item, release: Release)
    requires Corresponds(feed, published) && IsItemOf(item, release)
    ensures Corresponds([item] + feed, published + [release])
  {
    hide IsItemOf, HasItem, HasRelease;
    var feed', published' := [item] + feed, published + [release];
    forall k | 0 <= k < |published'| ensures HasItem(feed', published'[k]) {
      if k < |published| {
        ItemInFront(feed, item, published[k]);
      } else {
        FirstItem(feed', release);
      }
    }
    forall i | 0 <= i < |feed'| ensures HasRelease(published', feed'[i]) {
      ReleaseBehind(published, release, feed'[i]);
    }
  }

  lemma FirstItem(feed: seq<Item>, release: Release)
    requires feed != [] && IsItemOf(feed[0], release)
    ensures HasItem(feed, release)
  {}

  lemma CorrespondsAgain(feed: seq<Item>, published: seq<Release>, release: Release)
    requires Corresponds(feed, published) && feed != [] && IsItemOf(feed[0], release)
    ensures Corresponds(feed, published + [release])
  {
    hide IsItemOf, HasItem, HasRelease;
    var published' := published + [release];
    FirstItem(feed, release);
    assert forall k :: 0 <= k < |published'| ==> published'[k] == if k < |published| then published[k] else release;
    forall i | 0 <= i < |feed| ensures HasRelease(published', feed[i]) {
      ReleaseBehind(published, release, feed[i]);
    }
  }

  lemma OwnItem(release: Release)
    requires release.length > 0 && NumericVersion(release.version).Some?
    ensures IsItemOf(NewItem(release), release)
  {
    NewItemVersion(release, NumericVersion(release.version).value);
  }

  lemma CorrespondsStep(feed: seq<Item>, published: seq<Release>, release: Release)
    requires Descending(feed) && Corresponds(feed, published) && AllItems(release, feed).Ok?
    ensures Corresponds(AllItems(release, feed).value, published + [release])
  {
    hide AllItems, VersionOf, NumericVersion, Less, Corresponds;
    PublicationIff(release, feed);
    if feed != [] && VersionOf(feed[0]) == NumericVersion(release.version) {
      LessTransitive(VersionOf(feed[0]).value, VersionOf(feed[0]).value, VersionOf(feed[0]).value);
      CorrespondsAgain(feed, published, release);
    } else {
      OwnItem(release);
      CorrespondsInFront(feed, published, NewItem(release), release);
    }
  }

  lemma {:induction false} AlwaysCorresponds(releases: seq<Release>)
    ensures Corresponds(Uncut(releases).feed, Uncut(releases).published) && Descending(Uncut(releases).feed)
  {
    hide AllItems, MakeAppcast, VersionOf, NumericVersion, Less, Corresponds;
    if releases == [] {
      NothingPublished();
    } else {
      AlwaysCorresponds(releases[..|releases| - 1]);
      var h, release := Uncut(releases[..|releases| - 1]), releases[|releases| - 1];
      CutStep(release, h.feed);
      if AllItems(release, h.feed).Ok? {
        CorrespondsStep(h.feed, h.published, release);
      }
    }
  }

  lemma NothingPublished()
    ensures Corresponds([], []) && Descending([])
  {}

  // ------------------------------------------------------------ main results

  lemma OneItemPerVersion(feed: seq<Item>, i: nat, j: nat)
    requires Descending(feed) && i < |feed| && j < |feed| && VersionOf(feed[i]) == VersionOf(feed[j])
    ensures i == j
  {
    hide VersionOf, Less;
    LessTransitive(VersionOf(feed[i]).value, VersionOf(feed[j]).value, VersionOf(feed[i]).value);
  }

  lemma SameDecimal(a: nat, b: nat)
    requires Decimal(a) == Decimal(b)
    ensures a == b
  {
    DecimalParses(a);
    DecimalParses(b);
  }

  /** A numeric build version is bound to one download for good: whatever was published
      under it has the same URL, signature and length. */
  lemma {:induction false} VersionBoundOnce(releases: seq<Release>, a: Release, b: Release)
    requires a in Publications(releases).published && b in Publications(releases).published
    requires NumericVersion(a.version) == NumericVersion(b.version)
    ensures a.url == b.url && a.signature == b.signature && a.length == b.length
  {
    hide VersionOf, NumericVersion, Less, Decimal, Corresponds, Newest, Uncut, Publications;
    FeedIsNewest(releases);
    AlwaysCorresponds(releases);
    var feed := Uncut(releases).feed;
    var i := ItemOf(feed, Uncut(releases).published, a);
    var j := ItemOf(feed, Uncut(releases).published, b);
    OneItemPerVersion(feed, i, j);
    SameDecimal(a.length, b.length);
  }

  lemma HeadReleased(feed: seq<Item>, published: seq<Release>)
    requires Corresponds(feed, published) && feed != []
    ensures HasRelease(published, feed[0])
  {}

  /** The head of the feed is the greatest version ever published. */
  lemma {:induction false} HeadIsGreatest(releases: seq<Release>, r: Release)
    requires r in Publications(releases).published
    ensures var feed := Publications(releases).feed;
            && feed != [] && VersionOf(feed[0]).Some? && NumericVersion(r.version).Some?
            && (NumericVersion(r.version) == VersionOf(feed[0]) || Less(NumericVersion(r.version).value, VersionOf(feed[0]).value))
            && HasRelease(Publications(releases).published, feed[0])
  {
    hide VersionOf, NumericVersion, Less, Decimal, SameDownload, Corresponds, Uncut, Publications, HasRelease;
    FeedIsNewest(releases);
    AlwaysCorresponds(releases);
    var feed := Uncut(releases).feed;
    NewestDescends(feed);
    var i := ItemOf(feed, Uncut(releases).published, r);
    assert Head(Newest(feed)) == Some(feed[0]);
    HeadReleased(feed, Uncut(releases).published);
  }

  /** The same version of `a` and the download of `b`: what a repeated publication is. */
  predicate Repeats(a: Release, b: Release) {
    NumericVersion(a.version) == NumericVersion(b.version) && a.url == b.url && a.signature == b.signature && a.length == b.length
  }

  predicate IsNewerThan(a: Release, b: Release) {
    NumericVersion(a.version).Some? && NumericVersion(b.version).Some?
    && Less(NumericVersion(b.version).value, NumericVersion(a.version).value)
  }

  /** A well-formed release is accepted exactly if it is newer than everything ever
      published, or repeats its latest version with the same download: what the feed has
      dropped does not matter. */
  lemma {:induction false} AcceptedIff(releases: seq<Release>, r: Release)
    requires r.signatureBytes == Some(64) && r.length > 0 && NumericVersion(r.version).Some?
    ensures var h := Publications(releases);
            MakeAppcast(r, h.feed).Ok? <==> forall q :: q in h.published ==> IsNewerThan(r, q) || Repeats(r, q)
  {
    hide VersionOf, NumericVersion, Less, Decimal, AllItems, SameDownload, IsNewerThan, Repeats, Corresponds, MakeAppcast, Newest,
      Uncut, Publications, IsItemOf, MayPublish, Descending;
    FeedIsNewest(releases);
    AlwaysCorresponds(releases);
    var feed, published := Uncut(releases).feed, Uncut(releases).published;
    CutStep(r, feed);
    PublicationIff(r, feed);
    if feed != [] {
      var head := ReleaseOf(feed, published, 0);
      HeadComparison(r, feed[0], head);
      forall q | q in published && MayPublish(r, Some(feed[0])) ensures IsNewerThan(r, q) || Repeats(r, q) {
        var i := ItemOf(feed, published, q);
        OlderOrHead(r, q, feed, i);
      }
    } else {
      NothingListed(feed, published);
      FirstRelease(r);
    }
  }

  lemma NothingListed(feed: seq<Item>, published: seq<Release>)
    requires Corresponds(feed, published) && feed == []
    ensures published == []
  {
    assert published != [] ==> HasItem(feed, published[0]);
  }

  lemma FirstRelease(r: Release)
    requires r.signatureBytes == Some(64) && r.length > 0 && NumericVersion(r.version).Some?
    ensures MayPublish(r, None)
  {}

  /** Against the release that the head stands for. */
  lemma HeadComparison(r: Release, item: Item, head: Release)
    requires r.signatureBytes == Some(64) && r.length > 0 && NumericVersion(r.version).Some? && IsItemOf(item, head)
    ensures MayPublish(r, Some(item)) <==> IsNewerThan(r, head) || Repeats(r, head)
  {
    hide VersionOf, NumericVersion, Less, Decimal;
    if Decimal(r.length) == Decimal(head.length) {
      SameDecimal(r.length, head.length);
    }
  }

  lemma OlderOrHead(r: Release, q: Release, feed: seq<Item>, i: nat)
    requires Descending(feed) && i < |feed| && IsItemOf(feed[i], q) && MayPublish(r, Some(feed[0]))
    ensures IsNewerThan(r, q) || Repeats(r, q)
  {
    hide VersionOf, NumericVersion, Less, Decimal;
    if i == 0 {
      HeadComparison(r, feed[0], q);
    } else {
      LessTransitive(VersionOf(feed[i]).value, VersionOf(feed[0]).value, NumericVersion(r.version).value);
    }
  }

  /** Publishing the same release again right away gives the same feed. */
  lemma {:induction false} RetryReproduces(releases: seq<Release>, r: Release)
    requires MakeAppcast(r, Publications(releases).feed).Ok?
    ensures var feed := MakeAppcast(r, Publications(releases).feed).value;
            MakeAppcast(r, feed) == Ok(feed)
  {
    hide VersionOf, NumericVersion, Less, Decimal, AllItems, Newest;
    FeedIsNewest(releases);
    var items := Uncut(releases).feed;
    CutStep(r, items);
    PublicationIff(r, items);
    var all := AllItems(r, items).value;
    CutStep(r, all);
    PublicationIff(r, all);
    FrontRepeats(r, items);
  }

  lemma FrontRepeats(r: Release, items: seq<Item>)
    requires MayPublish(r, Head(items)) && NumericVersion(r.version).Some?
    ensures var all := if items != [] && VersionOf(items[0]) == NumericVersion(r.version) then items else [NewItem(r)] + items;
            && MayPublish(r, Head(all)) && all != [] && VersionOf(all[0]) == NumericVersion(r.version)
  {
    hide VersionOf, NumericVersion, Less, Decimal;
    OwnItem(r);
  }
}
