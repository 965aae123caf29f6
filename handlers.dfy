/** The parts of the HTTP handlers (Main.java) that act on the core: the edit,
    comment and delete routes once Spark has extracted their parameters. */
module Handlers {
  import opened Wrappers
  import opened Clock
  import opened Comments
  import opened BlogEntries
  import opened BlogDao
  import opened TagInput
  import opened Flash

  const DeletedMessage: string := "Blog entry deleted successfully."
  const DeleteFailedMessage: string := "Whoops! Failed to delete your blog"

  /** POST /entries/:slug — replaces title, content and tags of the entry found by
      `slug`, never its slug, and redirects to that unchanged slug. A missing entry
      is the NotFoundException the lookup throws, with nothing changed. */
  method EditEntry(dao: SimpleBlogDao, slug: string, newTitle: string, newContent: string,
                   tagsInput: Option<string>) returns (redirect: Result<string, NotFoundException>)
    requires NullFreeUntilMatch(dao.entries, slug)
    modifies dao.entries
    ensures old(dao.FindEntryBySlug(slug)).Failure? ==>
      redirect == Failure(NotFoundException) &&
      forall e :: e in old(dao.entries) ==> unchanged(e)
    ensures old(dao.FindEntryBySlug(slug)).Success? ==>
      var entry := old(dao.FindEntryBySlug(slug)).value;
      && redirect == Success("/entries/" + slug)
      && entry.title == newTitle && entry.content == newContent
      && entry.tags == TagSet(tagsInput)
      && entry.slug == old(entry.slug) == Some(slug)
      && entry.comments == old(entry.comments)
      && forall e :: e in old(dao.entries) && e != entry ==> unchanged(e)
  {
    var found := dao.FindEntryBySlug(slug);
    if found.Failure? {
      return Failure(found.error);
    }
    var entry := found.value;
    var tags := ParseTags(tagsInput);
    entry.SetTitle(newTitle);
    entry.SetContent(newContent);
    entry.SetTags(tags);
    redirect := Success("/entries/" + entry.GetSlug().value);
  }

  /** POST /entries/:slug/comments — appends exactly one new comment, with the
      submitted author and content, to the entry found by `slug`. */
  method AddCommentToEntry(dao: SimpleBlogDao, slug: string, author: string, content: string,
                           now: LocalDateTime) returns (redirect: Result<string, NotFoundException>)
    requires NullFreeUntilMatch(dao.entries, slug)
    modifies dao.entries
    ensures old(dao.FindEntryBySlug(slug)).Failure? ==>
      redirect == Failure(NotFoundException) &&
      forall e :: e in old(dao.entries) ==> unchanged(e)
    ensures old(dao.FindEntryBySlug(slug)).Success? ==>
      var entry := old(dao.FindEntryBySlug(slug)).value;
      && redirect == Success("/entries/" + slug)
      && |entry.comments| == |old(entry.comments)| + 1
      && entry.comments[..|old(entry.comments)|] == old(entry.comments)
      && fresh(entry.comments[|entry.comments| - 1])
      && entry.comments[|entry.comments| - 1].author == author
      && entry.comments[|entry.comments| - 1].content == content
      && entry.comments[|entry.comments| - 1].creationDate == now
      && entry.title == old(entry.title) && entry.content == old(entry.content)
      && entry.slug == old(entry.slug) && entry.tags == old(entry.tags)
      && forall e :: e in old(dao.entries) && e != entry ==> unchanged(e)
  {
    var found := dao.FindEntryBySlug(slug);
    if found.Failure? {
      return Failure(found.error);
    }
    var entry := found.value;
    var comment := new Comment(author, content, now);
    var _ := entry.AddComment(comment);
    redirect := Success("/entries/" + slug);
  }

  /** POST /entries/:slug/delete — deletes only when the form's `_method` field is
      "DELETE", then redirects home; otherwise it changes nothing, leaves a failure
      message and does not redirect. */
  method DeleteEntry(dao: SimpleBlogDao, req: Request, methodField: Option<string>, slug: string)
    returns (redirect: Option<string>)
    requires methodField == Some("DELETE") ==> AllSlugged(dao.entries)
    modifies dao, req
    ensures req.session.Some?
    ensures req.session.value ==
      old(if req.session.Some? then req.session.value else map[])
        [FlashMessageKey := if methodField == Some("DELETE") then DeletedMessage else DeleteFailedMessage]
    ensures methodField == Some("DELETE") ==>
      && dao.entries == WithoutSlug(old(dao.entries), slug)
      && redirect == Some("/")
      && GetFlashMessage(req) == Some(DeletedMessage)
    ensures methodField != Some("DELETE") ==>
      && dao.entries == old(dao.entries)
      && redirect == None
      && GetFlashMessage(req) == Some(DeleteFailedMessage)
  {
    if methodField == Some("DELETE") {
      dao.DeleteEntryBySlug(slug);
      SetFlashMessage(req, DeletedMessage);
      redirect := Some("/");
    } else {
      SetFlashMessage(req, DeleteFailedMessage);
      redirect := None;
    }
  }
}
