/**
 * The list adapter: the backing list of articles that the screen shows,
 * changed in place by `clearArticles` and `addData`, the binding of one
 * article to a row, and the reformatting of the publication date.
 *
 * View inflation, text views, image loading and click handling are not
 * modelled; a bound row is the tuple of values the row would display.
 */
module ArticleAdapterModel {
  import opened Wrappers
  import opened Articles

  /*************************************************************************
   * formatDate: "yyyy-MM-dd'T'HH:mm:ss'Z'" to "dd-MM-yyyy"
   *************************************************************************/

  predicate IsDigit(c: char) {
    '0' <= c <= '9'
  }

  /** The positions `lo` up to `hi` of `s` hold digits. */
  predicate DigitsAt(s: string, lo: nat, hi: nat)
    requires lo <= hi <= |s|
  {
    forall i :: lo <= i < hi ==> IsDigit(s[i])
  }

  function DigitValue(c: char): int {
    c as int - '0' as int
  }

  /** The value of the two decimal digits at `i` and `i + 1`. */
  function TwoDigits(s: string, i: nat): int
    requires i + 1 < |s|
  {
    DigitValue(s[i]) * 10 + DigitValue(s[i + 1])
  }

  /** The input shape: digits and literal separators in the pattern's positions. */
  predicate HasTimestampShape(s: string) {
    && |s| == 20
    && DigitsAt(s, 0, 4) && s[4] == '-'
    && DigitsAt(s, 5, 7) && s[7] == '-'
    && DigitsAt(s, 8, 10) && s[10] == 'T'
    && DigitsAt(s, 11, 13) && s[13] == ':'
    && DigitsAt(s, 14, 16) && s[16] == ':'
    && DigitsAt(s, 17, 19) && s[19] == 'Z'
  }

  predicate IsLeapYear(year: int) {
    (year % 4 == 0 && year % 100 != 0) || year % 400 == 0
  }

  function DaysInMonth(year: int, month: int): int
    requires 1 <= month <= 12
  {
    if month == 2 then (if IsLeapYear(year) then 29 else 28)
    else if month == 4 || month == 6 || month == 9 || month == 11 then 30
    else 31
  }

  // The calendar fields of a well-shaped timestamp.
  function Year(s: string): int requires HasTimestampShape(s) { TwoDigits(s, 0) * 100 + TwoDigits(s, 2) }
  function Month(s: string): int requires HasTimestampShape(s) { TwoDigits(s, 5) }
  function Day(s: string): int requires HasTimestampShape(s) { TwoDigits(s, 8) }
  function Hour(s: string): int requires HasTimestampShape(s) { TwoDigits(s, 11) }
  function Minute(s: string): int requires HasTimestampShape(s) { TwoDigits(s, 14) }
  function Second(s: string): int requires HasTimestampShape(s) { TwoDigits(s, 17) }

  /**
   * A timestamp the input pattern reads without any lenient adjustment: the
   * exact shape, a Gregorian date from 1583 on (after the calendar switch)
   * that exists, and a time of day within range.
   */
  predicate IsCalendarTimestamp(s: string) {
    && HasTimestampShape(s)
    && 1583 <= Year(s)
    && 1 <= Month(s) <= 12
    && 1 <= Day(s) <= DaysInMonth(Year(s), Month(s))
    && Hour(s) <= 23 && Minute(s) <= 59 && Second(s) <= 59
  }

  /** The output shape "dd-MM-yyyy". */
  predicate IsDisplayDate(d: string) {
    && |d| == 10
    && DigitsAt(d, 0, 2) && d[2] == '-'
    && DigitsAt(d, 3, 5) && d[5] == '-'
    && DigitsAt(d, 6, 10)
  }

  /** The (year, month, day) a display string "dd-MM-yyyy" shows. */
  function DisplayedDate(d: string): (int, int, int)
    requires IsDisplayDate(d)
  {
    (TwoDigits(d, 6) * 100 + TwoDigits(d, 8), TwoDigits(d, 3), TwoDigits(d, 0))
  }

  /**
   * `formatDate`: the publication date shown as day-month-year. Parsing and
   * formatting use the same time zone, so the calendar date is kept and the
   * time of day is dropped. `None` for every input outside the exact,
   * in-range pattern. The original fails only where parsing throws, and then
   * formats a null date, which throws too; the other inputs outside the
   * pattern it reads leniently, and that reading is not modelled.
   */
  function FormatDate(dateObject: string): (r: Option<string>)
    ensures r.Some? <==> IsCalendarTimestamp(dateObject)
    ensures r.Some? ==>
      && IsDisplayDate(r.value)
      && DisplayedDate(r.value) == (Year(dateObject), Month(dateObject), Day(dateObject))
  {
    if IsCalendarTimestamp(dateObject) then
      Some(dateObject[8..10] + "-" + dateObject[5..7] + "-" + dateObject[0..4])
    else None
  }

  /** The time part never affects the displayed date. */
  lemma {:induction false} TimeOfDayIgnored(s: string, t: string)
    requires IsCalendarTimestamp(s) && IsCalendarTimestamp(t)
    requires s[..10] == t[..10]
    ensures FormatDate(s) == FormatDate(t)
  {
    assert s[0..4] == s[..10][0..4] == t[..10][0..4] == t[0..4];
    assert s[5..7] == s[..10][5..7] == t[..10][5..7] == t[5..7];
    assert s[8..10] == s[..10][8..10] == t[..10][8..10] == t[8..10];
  }

  /**
   * The display string is a rearrangement of the input's characters: day
   * digits, a dash, month digits, a dash, year digits. This is `FormatDate`'s
   * result written character by character rather than as slices, the form
   * the examples below evaluate on concrete text.
   */
  lemma FormatDateRearrangesDigits(s: string)
    requires IsCalendarTimestamp(s)
    ensures FormatDate(s) == Some([s[8], s[9], '-', s[5], s[6], '-', s[0], s[1], s[2], s[3]])
  {
    var d := s[8..10] + "-" + s[5..7] + "-" + s[0..4];
    var e := [s[8], s[9], '-', s[5], s[6], '-', s[0], s[1], s[2], s[3]];
    assert |d| == |e| == 10;
    assert d[0] == e[0] && d[1] == e[1] && d[2] == e[2] && d[3] == e[3] && d[4] == e[4];
    assert d[5] == e[5] && d[6] == e[6] && d[7] == e[7] && d[8] == e[8] && d[9] == e[9];
    assert d == e;
  }

  /** A sample publication date: the day comes first. */
  lemma FormatDateExample()
    ensures FormatDate("2021-03-15T10:00:00Z") == Some("15-03-2021")
  {
    var s := "2021-03-15T10:00:00Z";
    assert s[0] == '2' && s[1] == '0' && s[2] == '2' && s[3] == '1' && s[5] == '0' && s[6] == '3';
    assert s[8] == '1' && s[9] == '5' && s[11] == '1' && s[12] == '0';
    assert s[14] == '0' && s[15] == '0' && s[17] == '0' && s[18] == '0';
    assert HasTimestampShape(s);
    FormatDateRearrangesDigits(s);
  }

  /**
   * The last second of a day still shows that day, as its first hours do:
   * there is no time zone shift.
   */
  lemma LateTimestampKeepsItsDay()
    ensures FormatDate("2021-03-15T23:59:59Z") == FormatDate("2021-03-15T10:00:00Z") == Some("15-03-2021")
  {
    var s, t := "2021-03-15T10:00:00Z", "2021-03-15T23:59:59Z";
    FormatDateExample();
    assert t[0] == '2' && t[1] == '0' && t[2] == '2' && t[3] == '1' && t[5] == '0' && t[6] == '3';
    assert t[8] == '1' && t[9] == '5' && t[11] == '2' && t[12] == '3';
    assert t[14] == '5' && t[15] == '9' && t[17] == '5' && t[18] == '9';
    assert IsCalendarTimestamp(t);
    assert s[..10] == t[..10];
    TimeOfDayIgnored(s, t);
  }

  /*************************************************************************
   * Binding one article to a row
   *************************************************************************/

  /** What a bound row shows, and the URL a click on it opens. */
  datatype Row = Row(
    section: string,
    headline: string,
    date: string,
    author: Option<string>,
    imageUrl: string,
    clickUrl: string)

  /**
   * `ViewHolder.bind`: the row shows the category, headline, formatted date,
   * author and thumbnail, and a click opens the web URL. `None` where the
   * date cannot be formatted, which makes the original throw.
   */
  function Bind(article: Article): (r: Option<Row>)
    ensures r.Some? <==> IsCalendarTimestamp(article.GetWebPublicationDate())
    ensures r.Some? ==>
      && r.value.section == article.GetCategory()
      && r.value.headline == article.GetHeadline()
      && Some(r.value.date) == FormatDate(article.GetWebPublicationDate())
      && r.value.author == article.GetAuthor()
      && r.value.imageUrl == article.GetThumbnail()
      && r.value.clickUrl == article.GetWebUrl()
  {
    match FormatDate(article.GetWebPublicationDate())
    case None => None
    case Some(date) =>
      Some(Row(article.GetCategory(), article.GetHeadline(), date, article.GetAuthor(),
               article.GetThumbnail(), article.GetWebUrl()))
  }

  /*************************************************************************
   * The backing list and the adapter
   *************************************************************************/

  /** A mutable `List<Article>`, shared by reference. */
  class ArticleList {
    var items: seq<Article>

    constructor (items: seq<Article>)
      ensures this.items == items
    {
      this.items := items;
    }
  }

  class ArticleAdapter {
    /** The list handed to the constructor: the same object, not a copy. */
    const articles: ArticleList

    constructor (articles: ArticleList)
      ensures this.articles == articles
      ensures this.articles.items == old(articles.items)
    {
      this.articles := articles;
    }

    /** `getItemCount`: the number of articles in the backing list. */
    function GetItemCount(): (count: nat)
      reads articles
      ensures count == |articles.items|
    {
      |articles.items|
    }

    /** `clearArticles`: the backing list becomes empty. */
    method ClearArticles()
      modifies articles
      ensures articles.items == []
      ensures GetItemCount() == 0
    {
      articles.items := [];
    }

    /**
     * `addData`: the articles of `data`, in order, after the ones already
     * there. `data` may be the backing list itself; its contents are taken
     * before anything is appended.
     */
    method AddData(data: ArticleList)
      modifies articles
      ensures articles.items == old(articles.items) + old(data.items)
      ensures GetItemCount() == old(GetItemCount()) + |old(data.items)|
      ensures forall i :: 0 <= i < |old(articles.items)| ==> articles.items[i] == old(articles.items[i])
    {
      articles.items := articles.items + data.items;
    }

    /**
     * `onBindViewHolder`: the row for the article at `position`. The list
     * view asks only for positions below `getItemCount()`.
     */
    method OnBindViewHolder(position: int) returns (row: Option<Row>)
      requires 0 <= position < GetItemCount()
      ensures row == Bind(articles.items[position])
    {
      row := Bind(articles.items[position]);
    }
  }
}
