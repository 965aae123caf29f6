/** The in-memory entry store (dao/SimpleBlogDao.java): an ArrayList of entry
    references, appended to by addEntry and filtered in place by deleteEntryBySlug. */
module BlogDao {
  import opened Wrappers
  import opened BlogEntries

  datatype NotFoundException = NotFoundException

  /** Lookup calls `entry.getSlug().equals(slug)` on each entry the stream reaches,
      and `findFirst` stops at the first match: every entry up to and including the
      first one with this slug must have a non-null slug, or the lookup dereferences null. */
  predicate NullFreeUntilMatch(es: seq<BlogEntry>, slug: string)
    reads es
  {
    es == [] || (es[0].slug.Some? && (es[0].slug == Some(slug) || NullFreeUntilMatch(es[1..], slug)))
  }

  /** `removeIf` tests every element, so deleting dereferences every entry's slug. */
  predicate AllSlugged(es: seq<BlogEntry>)
    reads es
  {
    forall i :: 0 <= i < |es| ==> es[i].slug.Some?
  }

  lemma {:induction false} AllSluggedScansSafely(es: seq<BlogEntry>, slug: string)
    requires AllSlugged(es)
    ensures NullFreeUntilMatch(es, slug)
    decreases |es|
  {
    if es != [] {
      AllSluggedScansSafely(es[1..], slug);
    }
  }

  /** The position `entries.stream().filter(...).findFirst()` stops at: the first
      entry, in insertion order, whose slug equals `slug`. */
  function FirstMatch(es: seq<BlogEntry>, slug: string): (r: Option<nat>)
    reads es
    requires NullFreeUntilMatch(es, slug)
    ensures r.Some? ==> r.value < |es| && es[r.value].slug == Some(slug)
    ensures r.Some? ==> forall j :: 0 <= j < r.value ==> es[j].slug != Some(slug)
    ensures r.None? <==> forall j :: 0 <= j < |es| ==> es[j].slug != Some(slug)
    decreases |es|
  {
    if es == [] then None
    else if es[0].slug == Some(slug) then Some(0)
    else match FirstMatch(es[1..], slug)
      case None => None
      case Some(i) => Some(i + 1)
  }

  /** What `entries.removeIf(entry -> entry.getSlug().equals(slug))` leaves. */
  function WithoutSlug(es: seq<BlogEntry>, slug: string): (r: seq<BlogEntry>)
    reads es
    requires AllSlugged(es)
    ensures |r| <= |es|
    ensures forall i :: 0 <= i < |r| ==> r[i] in es && r[i].slug.Some? && r[i].slug != Some(slug)
    ensures forall i :: 0 <= i < |es| && es[i].slug != Some(slug) ==> es[i] in r
    decreases |es|
  {
    if es == [] then []
    else if es[0].slug == Some(slug) then WithoutSlug(es[1..], slug)
    else [es[0]] + WithoutSlug(es[1..], slug)
  }

  /** Deleting keeps the survivors in their original relative order: it distributes over concatenation. */
  lemma {:induction false} WithoutSlugConcat(a: seq<BlogEntry>, b: seq<BlogEntry>, slug: string)
    requires AllSlugged(a) && AllSlugged(b)
    ensures AllSlugged(a + b)
    ensures WithoutSlug(a + b, slug) == WithoutSlug(a, slug) + WithoutSlug(b, slug)
    decreases |a|
  {
    if a != [] {
      assert (a + b)[1..] == a[1..] + b;
      WithoutSlugConcat(a[1..], b, slug);
    } else {
      assert a + b == b;
    }
  }

  /** Deleting a slug that no entry has leaves the store exactly as it was. */
  lemma {:induction false} WithoutAbsentSlug(es: seq<BlogEntry>, slug: string)
    requires AllSlugged(es)
    requires forall i :: 0 <= i < |es| ==> es[i].slug != Some(slug)
    ensures WithoutSlug(es, slug) == es
    decreases |es|
  {
    if es != [] {
      WithoutAbsentSlug(es[1..], slug);
    }
  }

  /** Every entry with the slug is gone; every other entry keeps its number of occurrences. */
  lemma {:induction false} WithoutSlugCounts(es: seq<BlogEntry>, slug: string, e: BlogEntry)
    requires AllSlugged(es)
    ensures multiset(WithoutSlug(es, slug))[e] == if e.slug == Some(slug) then 0 else multiset(es)[e]
    decreases |es|
  {
    if es != [] {
      WithoutSlugCounts(es[1..], slug, e);
      assert es == [es[0]] + es[1..];
    }
  }

  /** After deleting a slug, looking it up finds nothing. */
  lemma NotFoundAfterDelete(es: seq<BlogEntry>, slug: string)
    requires AllSlugged(es)
    ensures AllSlugged(WithoutSlug(es, slug))
    ensures NullFreeUntilMatch(WithoutSlug(es, slug), slug)
    ensures FirstMatch(WithoutSlug(es, slug), slug) == None
  {
  }

  /** Appending never changes an existing match, so a later entry with a duplicate
      slug is shadowed by the earlier one; with no earlier match, the appended entry is found. */
  lemma {:induction false} FirstMatchAfterAppend(es: seq<BlogEntry>, e: BlogEntry, slug: string)
    requires NullFreeUntilMatch(es, slug)
    requires FirstMatch(es, slug).None? ==> e.slug.Some?
    ensures NullFreeUntilMatch(es + [e], slug)
    ensures FirstMatch(es + [e], slug) ==
      if FirstMatch(es, slug).Some? then FirstMatch(es, slug)
      else if e.slug == Some(slug) then Some(|es|)
      else None
    decreases |es|
  {
    if es != [] {
      assert (es + [e])[1..] == es[1..] + [e];
      if es[0].slug != Some(slug) {
        FirstMatchAfterAppend(es[1..], e, slug);
      }
    }
  }

  class SimpleBlogDao {
    var entries: seq<BlogEntry>

    constructor ()
      ensures entries == []
    {
      entries := [];
    }

    /** Appends the entry; no slug check is made, so duplicate slugs may coexist. */
    method AddEntry(blogEntry: BlogEntry) returns (added: bool)
      modifies this
      ensures added
      ensures entries == old(entries) + [blogEntry]
    {
      entries := entries + [blogEntry];
      added := true;
    }

    /** A copy of the list: a sequence value the store can no longer be changed through. */
    method FindAllEntries() returns (all: seq<BlogEntry>)
      ensures all == entries
    {
      all := entries;
    }

    /** The first entry, in insertion order, carrying `slug`; NotFoundException when none does. */
    function FindEntryBySlug(slug: string): (r: Result<BlogEntry, NotFoundException>)
      reads this, entries
      requires NullFreeUntilMatch(entries, slug)
      ensures r.Failure? <==> forall i :: 0 <= i < |entries| ==> entries[i].slug != Some(slug)
      ensures r.Success? ==>
        exists i :: 0 <= i < |entries| && entries[i] == r.value && entries[i].slug == Some(slug) &&
          forall j :: 0 <= j < i ==> entries[j].slug != Some(slug)
    {
      match FirstMatch(entries, slug)
      case Some(i) => Success(entries[i])
      case None => Failure(NotFoundException)
    }

    /** Removes every entry whose slug equals `slug`; no match is not an error. */
    method DeleteEntryBySlug(slug: string)
      requires AllSlugged(entries)
      modifies this
      ensures entries == WithoutSlug(old(entries), slug)
    {
      entries := WithoutSlug(entries, slug);
    }
  }
}
