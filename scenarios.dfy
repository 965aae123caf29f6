/** Clients of the store that show, from the contracts alone, how the pieces fit:
    an entry's life from creation to deletion, the store holding references, and
    duplicate slugs. */
module Scenarios {
  import opened Wrappers
  import opened Clock
  import opened BlogEntries
  import opened BlogDao
  import opened Handlers

  /** Create an entry and comment on it through the handler: the entry then holds
      exactly that one comment. */
  method CommentOnNewEntry(slugify: string -> Option<string>, now: LocalDateTime)
    requires slugify("Hello, World!") == Some("hello-world")
  {
    var dao := new SimpleBlogDao();
    var entry := new BlogEntry("Hello, World!", "Some content", [], now, slugify);
    var added := dao.AddEntry(entry);
    assert added && dao.entries == [entry];
    AllSluggedScansSafely(dao.entries, "hello-world");
    assert dao.FindEntryBySlug("hello-world") == Success(entry);
    var redirect := AddCommentToEntry(dao, "hello-world", "Ann", "Nice post", now);
    assert redirect == Success("/entries/" + "hello-world");
    assert |entry.comments| == 1 && entry.comments[0].author == "Ann";
    assert entry.slug == Some("hello-world");
  }

  /** Delete a stored entry by its slug: the lookup then fails with NotFoundException,
      and a list taken before the delete still holds the entry. */
  method DeleteStoredEntry(slugify: string -> Option<string>, now: LocalDateTime)
    requires slugify("Hello, World!") == Some("hello-world")
  {
    var dao := new SimpleBlogDao();
    var entry := new BlogEntry("Hello, World!", "Some content", [], now, slugify);
    var _ := dao.AddEntry(entry);
    var snapshot := dao.FindAllEntries();
    assert AllSlugged(dao.entries);
    dao.DeleteEntryBySlug("hello-world");
    assert dao.entries == [];
    assert dao.FindEntryBySlug("hello-world") == Failure(NotFoundException);
    assert snapshot == [entry];
  }

  /** The seed data of `main`: three untagged entries are stored, a comment is
      added to the first after it was stored and is seen through a later lookup
      (the store holds references), an entry with three tags is stored, and a tag
      is added to the second entry afterwards. The contents are shortened. */
  method SeedData(slugify: string -> Option<string>, now: LocalDateTime)
    requires slugify("The best day I’ve ever had") == Some("the-best-day-ive-ever-had")
    requires slugify("The absolute worst day I’ve ever had") == Some("the-absolute-worst-day-ive-ever-had")
    requires slugify("That time at the mall") == Some("that-time-at-the-mall")
    requires slugify("Blog Post with tags") == Some("blog-post-with-tags")
  {
    var dao := new SimpleBlogDao();
    var entry1 := new BlogEntry("The best day I’ve ever had", "Lorem ipsum", [], now, slugify);
    var entry2 := new BlogEntry("The absolute worst day I’ve ever had", "Lorem ipsum", [], now, slugify);
    var entry3 := new BlogEntry("That time at the mall", "Lorem ipsum", [], now, slugify);
    var _ := dao.AddEntry(entry1);
    var _ := dao.AddEntry(entry2);
    var _ := dao.AddEntry(entry3);
    assert dao.entries == [entry1, entry2, entry3];
    var entry1Comment := new Comments.Comment("Carling Kirk", "Lorem ipsum", now);
    var _ := entry1.AddComment(entry1Comment);
    var entryWithTags := new BlogEntry("Blog Post with tags", "This is the content", ["Blog", "Java", "Spark"], now, slugify);
    var _ := dao.AddEntry(entryWithTags);
    assert entryWithTags.tags == {"Blog", "Java", "Spark"};
    entry2.AddTag("HTTP");
    assert entry2.tags == {"HTTP"};
    assert dao.entries == [entry1, entry2, entry3, entryWithTags];
    assert dao.entries[0].slug == Some("the-best-day-ive-ever-had");
    assert NullFreeUntilMatch(dao.entries, "the-best-day-ive-ever-had");
    var found := dao.FindEntryBySlug("the-best-day-ive-ever-had");
    assert found == Success(entry1);
    assert found.value.comments == [entry1Comment];
  }

  /** An entry whose slugification failed is stored with a null slug; a lookup for
      a slug that an earlier entry carries still succeeds, since the scan stops there. */
  method SluglessEntryIsStored(slugify: string -> Option<string>, now: LocalDateTime)
    requires slugify("The best day") == Some("the-best-day")
    requires slugify("Broken") == None
  {
    var dao := new SimpleBlogDao();
    var entry := new BlogEntry("The best day", "Lorem ipsum", [], now, slugify);
    var broken := new BlogEntry("Broken", "Lorem ipsum", [], now, slugify);
    assert broken.slug == None;
    var _ := dao.AddEntry(entry);
    var _ := dao.AddEntry(broken);
    assert dao.entries == [entry, broken];
    assert dao.entries[1].slug.None?;
    assert !AllSlugged(dao.entries);
    assert NullFreeUntilMatch(dao.entries, "the-best-day");
    assert dao.FindEntryBySlug("the-best-day") == Success(entry);
  }

  /** Nothing rejects a second entry with the same slug: lookup finds the earlier
      one and delete removes both. */
  method DuplicateSlugs(slugify: string -> Option<string>, now: LocalDateTime)
    requires slugify("Hello!") == Some("hello") && slugify("Hello?") == Some("hello")
  {
    var dao := new SimpleBlogDao();
    var first := new BlogEntry("Hello!", "one", [], now, slugify);
    var second := new BlogEntry("Hello?", "two", [], now, slugify);
    var _ := dao.AddEntry(first);
    var _ := dao.AddEntry(second);
    assert dao.entries == [first, second];
    AllSluggedScansSafely(dao.entries, "hello");
    assert dao.FindEntryBySlug("hello") == Success(first);
    dao.DeleteEntryBySlug("hello");
    assert dao.entries == [];
  }
}
