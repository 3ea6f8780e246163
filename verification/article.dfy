/**
 * The article record: six values fixed when the record is built and only
 * read afterwards. The author is the one field that may be `null`.
 */
module Articles {
  import opened Wrappers

  datatype Article = Article(
    headline: string,
    thumbnail: string,
    author: Option<string>,
    webUrl: string,
    category: string,
    webPublicationDate: string)
  {
    function GetHeadline(): string { headline }
    function GetThumbnail(): string { thumbnail }
    function GetAuthor(): Option<string> { author }
    function GetWebUrl(): string { webUrl }
    function GetCategory(): string { category }
    /** The publication date exactly as received; it is never parsed here. */
    function GetWebPublicationDate(): string { webPublicationDate }
  }

  /**
   * Each getter hands back the constructor argument in its position, the
   * constructor checks nothing (a null author is accepted), and the six
   * getters together determine the record.
   */
  lemma GettersReturnConstructorArguments(
    headline: string, thumbnail: string, author: Option<string>,
    webUrl: string, category: string, date: string)
    ensures var a := Article(headline, thumbnail, author, webUrl, category, date);
      && a.GetHeadline() == headline
      && a.GetThumbnail() == thumbnail
      && a.GetAuthor() == author
      && a.GetWebUrl() == webUrl
      && a.GetCategory() == category
      && a.GetWebPublicationDate() == date
  {
  }

  /** Two records with equal getters are the same record. */
  lemma GettersDetermineArticle(a: Article, b: Article)
    requires a.GetHeadline() == b.GetHeadline() && a.GetThumbnail() == b.GetThumbnail()
    requires a.GetAuthor() == b.GetAuthor() && a.GetWebUrl() == b.GetWebUrl()
    requires a.GetCategory() == b.GetCategory()
    requires a.GetWebPublicationDate() == b.GetWebPublicationDate()
    ensures a == b
  {
  }
}
