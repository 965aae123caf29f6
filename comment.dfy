/** A reader's comment on a blog entry (model/Comment.java). */
module Comments {
  import opened Clock

  class Comment {
    var author: string
    var content: string
    // No setter exists for the creation date: it is fixed by the constructor.
    const creationDate: LocalDateTime

    /** `new Comment(author, content)`; `now` is the clock reading taken at construction. */
    constructor (author: string, content: string, now: LocalDateTime)
      ensures this.author == author && this.content == content
      ensures creationDate == now
    {
      this.author := author;
      this.content := content;
      creationDate := now;
    }

    function GetAuthor(): string
      reads this
    {
      author
    }

    function GetContent(): string
      reads this
    {
      content
    }

    function GetCreationDate(): LocalDateTime
    {
      creationDate
    }

    method SetAuthor(author: string)
      modifies this
      ensures this.author == author
      ensures content == old(content)
    {
      this.author := author;
    }

    method SetContent(content: string)
      modifies this
      ensures this.content == content
      ensures author == old(author)
    {
      this.content := content;
    }
  }
}
