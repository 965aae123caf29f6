/** A blog post and everything it owns (model/BlogEntry.java). */
module BlogEntries {
  import opened Wrappers
  import opened Clock
  import opened Comments

  class BlogEntry {
    // None is a null slug: the one the constructor leaves when slugification fails.
    var slug: Option<string>
    var title: string
    var content: string
    // Set once by the constructor; the class has no setter for it.
    const creationDate: LocalDateTime
    var comments: seq<Comment>
    var tags: set<string>

    /** `new BlogEntry(title, content, tags...)`. The foreign Slugify library is the
        parameter `slugify`: a deterministic function whose None result stands for
        its IOException, which the constructor catches and survives with no slug. */
    constructor (title: string, content: string, tags: seq<string>, now: LocalDateTime,
                 slugify: string -> Option<string>)
      ensures this.title == title && this.content == content
      ensures creationDate == now
      ensures comments == []
      ensures this.tags == set t | t in tags
      ensures slug == slugify(title)
    {
      this.title := title;
      this.content := content;
      creationDate := now;
      comments := [];
      this.tags := set t | t in tags;
      slug := slugify(title);
    }

    function GetTitle(): string
      reads this
    {
      title
    }

    function GetContent(): string
      reads this
    {
      content
    }

    function GetCreationDate(): LocalDateTime
    {
      creationDate
    }

    function GetSlug(): Option<string>
      reads this
    {
      slug
    }

    function GetComments(): seq<Comment>
      reads this
    {
      comments
    }

    function GetTags(): set<string>
      reads this
    {
      tags
    }

    /** Appends to the comment list; `List.add` always reports success. */
    method AddComment(comment: Comment) returns (added: bool)
      modifies this
      ensures added
      ensures comments == old(comments) + [comment]
      ensures title == old(title) && content == old(content)
      ensures slug == old(slug) && tags == old(tags)
    {
      comments := comments + [comment];
      added := true;
    }

    /** Inserts into the tag set; a tag already present leaves it as it was. */
    method AddTag(tag: string)
      modifies this
      ensures tags == old(tags) + {tag}
      // Follows from the line above; stated for the reader: a duplicate tag is a no-op.
      ensures tag in old(tags) ==> tags == old(tags)
      ensures title == old(title) && content == old(content)
      ensures slug == old(slug) && comments == old(comments)
    {
      tags := tags + {tag};
    }

    method SetTitle(title: string)
      modifies this
      ensures this.title == title
      ensures content == old(content) && slug == old(slug)
      ensures tags == old(tags) && comments == old(comments)
    {
      this.title := title;
    }

    method SetContent(content: string)
      modifies this
      ensures this.content == content
      ensures title == old(title) && slug == old(slug)
      ensures tags == old(tags) && comments == old(comments)
    {
      this.content := content;
    }

    /** The only operation that changes the slug. */
    method SetSlug(slug: Option<string>)
      modifies this
      ensures this.slug == slug
      ensures title == old(title) && content == old(content)
      ensures tags == old(tags) && comments == old(comments)
    {
      this.slug := slug;
    }

    method SetTags(tags: set<string>)
      modifies this
      ensures this.tags == tags
      ensures title == old(title) && content == old(content)
      ensures slug == old(slug) && comments == old(comments)
    {
      this.tags := tags;
    }
  }
}
