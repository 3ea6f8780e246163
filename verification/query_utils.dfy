/**
 * The feed side of the news reader: the request decision (URL creation and
 * the status check), the reading of the response body, and the extraction
 * of articles from the parsed JSON response.
 *
 * The network exchange and the JSON text parser are not modelled; they come
 * in as parameters (`Exchange`, `parse`).
 */
module QueryUtils {
  import opened Wrappers
  import opened JsonTree
  import opened Articles

  // Keys of the content API's response.
  const Response := "response"
  const Results := "results"
  const SectionName := "sectionName"
  const WebPublicationDate := "webPublicationDate"
  const WebUrl := "webUrl"
  const Fields := "fields"
  const Headline := "headline"
  const Thumbnail := "thumbnail"
  const Tags := "tags"
  const WebTitle := "webTitle"

  // The only status code whose body is read.
  const HttpOk := 200

  /*************************************************************************
   * Extraction of articles from the parsed response
   *************************************************************************/

  /**
   * `new JSONObject(text)`, `getJSONObject("response")` and
   * `getJSONArray("results")`: the array of result items, or `None` when
   * any of the three steps throws.
   */
  function ResultsOf(root: Option<Json>): Option<seq<Json>>
  {
    var doc :- root;
    var rootObject :- AsObject(doc);
    var response :- GetObject(rootObject, Response);
    GetArray(response, Results)
  }

  /**
   * The author of an item: no tags means no author; otherwise the first tag
   * must be an object (else the item fails, `None`) and its `webTitle`, if it
   * is a string, is the author (`Some(None)` when it is missing).
   */
  function FirstTagAuthor(tags: seq<Json>): Option<Option<string>>
  {
    if |tags| == 0 then Some(None)
    else
      var authorObject :- AsObject(tags[0]);
      Some(GetString(authorObject, WebTitle))
  }

  /**
   * One pass of the loop body: the article built from one result item, or
   * `None` where one of the required lookups throws.
   */
  function ParseItem(item: Json): Option<Article>
  {
    var data :- AsObject(item);
    var sectionName :- GetString(data, SectionName);
    var webPublicationDate :- GetString(data, WebPublicationDate);
    var webUrl :- GetString(data, WebUrl);
    var fields :- GetObject(data, Fields);
    var headline :- GetString(fields, Headline);
    var thumbnail :- GetString(fields, Thumbnail);
    var tagsArray :- GetArray(data, Tags);
    var author :- FirstTagAuthor(tagsArray);
    Some(Article(headline, thumbnail, author, webUrl, sectionName, webPublicationDate))
  }

  predicate HasString(obj: map<string, Json>, key: string) {
    key in obj && obj[key].JString?
  }

  /**
   * The ways a result item can be malformed, stated independently of
   * `ParseItem`: it is not an object, a required string is missing, `fields`
   * is not an object, `tags` is not an array, or the first tag is not an object.
   */
  ghost predicate Malformed(item: Json) {
    || !item.JObject?
    || !HasString(item.members, SectionName)
    || !HasString(item.members, WebPublicationDate)
    || !HasString(item.members, WebUrl)
    || !(Fields in item.members && item.members[Fields].JObject?)
    || !HasString(item.members[Fields].members, Headline)
    || !HasString(item.members[Fields].members, Thumbnail)
    || !(Tags in item.members && item.members[Tags].JArray?)
    || (|item.members[Tags].items| > 0 && !item.members[Tags].items[0].JObject?)
  }

  /**
   * The loop's pattern: `parseItem` applied to the items in order, stopping
   * at the first item it rejects (the exception that ends the loop). The
   * result is the longest prefix of accepted items, each mapped to its value.
   */
  function ParsedPrefix<T, U>(items: seq<T>, parseItem: T -> Option<U>): (r: seq<U>)
    ensures |r| <= |items|
    ensures forall i :: 0 <= i < |r| ==> parseItem(items[i]) == Some(r[i])
    ensures |r| < |items| ==> parseItem(items[|r|]).None?
  {
    if items == [] then []
    else
      match parseItem(items[0])
      case None => []
      case Some(a) => [a] + ParsedPrefix(items[1..], parseItem)
  }

  /** One turn of the loop: the item at `i` is either rejected or prepended. */
  lemma ParsedPrefixStep<T, U>(items: seq<T>, i: nat, parseItem: T -> Option<U>)
    requires i < |items|
    ensures parseItem(items[i]).None? ==> ParsedPrefix(items[i..], parseItem) == []
    ensures parseItem(items[i]).Some? ==>
      ParsedPrefix(items[i..], parseItem) == [parseItem(items[i]).value] + ParsedPrefix(items[i + 1..], parseItem)
  {
    assert items[i..][0] == items[i];
    assert items[i..][1..] == items[i + 1..];
  }

  /**
   * `extractFeatureFromJSON` as a value: `None` (Java `null`) for a null or
   * empty text; otherwise a list, empty when the text does not hold the
   * `response.results` array.
   */
  function Extraction(articlesJson: Option<string>, parse: string -> Option<Json>): Option<seq<Article>>
  {
    if articlesJson.None? || |articlesJson.value| == 0 then None
    else
      match ResultsOf(parse(articlesJson.value))
      case None => Some([])
      case Some(items) => Some(ParsedPrefix(items, ParseItem))
  }

  /**
   * The extraction loop. `parse` stands for the JSON text parser (`None`:
   * the text is not JSON). Each item is appended in turn; the first item
   * whose lookups throw ends the loop, and the articles built so far are
   * returned.
   */
  method ExtractFeatureFromJson(articlesJson: Option<string>, parse: string -> Option<Json>)
    returns (articles: Option<seq<Article>>)
    ensures articles == Extraction(articlesJson, parse)
  {
    if articlesJson.None? || |articlesJson.value| == 0 {
      return None;
    }
    var list: seq<Article> := [];
    var results := ResultsOf(parse(articlesJson.value));
    if results.Some? {
      var resultsArray := results.value;
      var i := 0;
      assert resultsArray[0..] == resultsArray;
      while i < |resultsArray|
        invariant 0 <= i <= |resultsArray|
        invariant list + ParsedPrefix(resultsArray[i..], ParseItem) == ParsedPrefix(resultsArray, ParseItem)
      {
        var article := ParseItem(resultsArray[i]);
        ParsedPrefixStep(resultsArray, i, ParseItem);
        if article.None? {
          break;
        }
        list := list + [article.value];
        i := i + 1;
      }
      assert i == |resultsArray| ==> resultsArray[i..] == [];
      assert list == ParsedPrefix(resultsArray, ParseItem);
    }
    return Some(list);
  }

  /** A null or empty text gives `null`, never an empty list, and only those do. */
  lemma NullOnlyForNullOrEmptyText(articlesJson: Option<string>, parse: string -> Option<Json>)
    ensures Extraction(articlesJson, parse).None? <==> articlesJson == None || articlesJson == Some("")
  {
  }

  /**
   * A non-empty text that is not a JSON object, or lacks the `response`
   * object or its `results` array, gives an empty (non-null) list.
   */
  lemma MissingStructureGivesEmptyList(text: string, parse: string -> Option<Json>)
    requires text != ""
    requires || parse(text).None?
             || !parse(text).value.JObject?
             || !(Response in parse(text).value.members && parse(text).value.members[Response].JObject?)
             || var response := parse(text).value.members[Response].members;
                !(Results in response && response[Results].JArray?)
    ensures Extraction(Some(text), parse) == Some([])
  {
  }

  /**
   * The extracted list is exactly the articles of the items before the first
   * malformed one: for `results` present in the document, element i comes
   * from `results[i]`, and the list stops at the first malformed item.
   */
  lemma ExtractionIsLongestWellFormedPrefix(
    text: string, parse: string -> Option<Json>,
    root: map<string, Json>, response: map<string, Json>, items: seq<Json>)
    requires text != "" && parse(text) == Some(JObject(root))
    requires Response in root && root[Response] == JObject(response)
    requires Results in response && response[Results] == JArray(items)
    ensures Extraction(Some(text), parse).Some?
    ensures var r := Extraction(Some(text), parse).value;
      && |r| <= |items|
      && (forall i :: 0 <= i < |r| ==> !Malformed(items[i]) && ParseItem(items[i]) == Some(r[i]))
      && (|r| < |items| ==> Malformed(items[|r|]))
      && (|r| == |items| <==> forall i :: 0 <= i < |items| ==> !Malformed(items[i]))
  {
    forall i | 0 <= i < |items| ensures ParseItem(items[i]).None? <==> Malformed(items[i]) {
      MalformedIffParseFails(items[i]);
    }
  }

  /**
   * Any list that has the longest-accepted-prefix property is the one
   * `ParsedPrefix` returns: the property pins the result down.
   */
  lemma LongestPrefixIsUnique<T, U>(items: seq<T>, parseItem: T -> Option<U>, r: seq<U>)
    requires |r| <= |items|
    requires forall i :: 0 <= i < |r| ==> parseItem(items[i]) == Some(r[i])
    requires |r| < |items| ==> parseItem(items[|r|]).None?
    ensures r == ParsedPrefix(items, parseItem)
  {
    var s := ParsedPrefix(items, parseItem);
    if |r| < |s| {
      assert false;
    } else if |s| < |r| {
      assert false;
    }
    forall i | 0 <= i < |r| ensures r[i] == s[i] {
      assert Some(r[i]) == parseItem(items[i]) == Some(s[i]);
    }
  }

  /** Once an item is rejected, nothing after it can change the result. */
  lemma {:induction false} ItemsAfterRejectedIgnored<T, U>(items: seq<T>, more: seq<T>, parseItem: T -> Option<U>)
    requires |ParsedPrefix(items, parseItem)| < |items|
    ensures ParsedPrefix(items + more, parseItem) == ParsedPrefix(items, parseItem)
  {
    assert (items + more)[0] == items[0];
    assert (items + more)[1..] == items[1..] + more;
    match parseItem(items[0])
    case None =>
    case Some(a) =>
      ItemsAfterRejectedIgnored(items[1..], more, parseItem);
  }

  /** An item fails exactly when it is malformed. */
  lemma MalformedIffParseFails(item: Json)
    ensures ParseItem(item).None? <==> Malformed(item)
  {
  }

  /**
   * The fields of a well-formed item are copied unchanged: headline and
   * thumbnail from `fields`, category from `sectionName`, URL and date as
   * they are. The author is absent when `tags` is empty, and otherwise is
   * the first tag's `webTitle`, absent when that is missing.
   */
  lemma FieldMapping(item: Json)
    requires ParseItem(item).Some?
    ensures var a := ParseItem(item).value;
      var data := item.members;
      var fields := data[Fields].members;
      var tags := data[Tags].items;
      && JString(a.headline) == fields[Headline]
      && JString(a.thumbnail) == fields[Thumbnail]
      && JString(a.category) == data[SectionName]
      && JString(a.webUrl) == data[WebUrl]
      && JString(a.webPublicationDate) == data[WebPublicationDate]
      && (|tags| == 0 ==> a.author.None?)
      && (|tags| > 0 ==> a.author == GetString(tags[0].members, WebTitle))
  {
  }

  /** Only the first tag is read: the tags after it never change the article. */
  lemma OnlyFirstTagMatters(data: map<string, Json>, tags: seq<Json>, others: seq<Json>)
    requires |tags| > 0
    ensures ParseItem(JObject(data[Tags := JArray(tags)]))
         == ParseItem(JObject(data[Tags := JArray([tags[0]] + others)]))
  {
  }

  /**
   * A first tag without a `webTitle` string does not drop the item: it is
   * appended with no author.
   */
  lemma MissingWebTitleKeepsItem(item: Json)
    requires !Malformed(item)
    requires var tags := item.members[Tags].items;
      |tags| > 0 && !HasString(tags[0].members, WebTitle)
    ensures ParseItem(item).Some? && ParseItem(item).value.author.None?
  {
  }

  /*************************************************************************
   * Reading the response body
   *************************************************************************/

  predicate IsLineTerminator(c: char) {
    c == '\n' || c == '\r'
  }

  /** The text with every line terminator removed. */
  function StripTerminators(s: string): (r: string)
    ensures forall i :: 0 <= i < |r| ==> !IsLineTerminator(r[i])
  {
    if s == [] then []
    else (if IsLineTerminator(s[0]) then [] else [s[0]]) + StripTerminators(s[1..])
  }

  lemma {:induction false} StripTerminatorsAppend(a: string, b: string)
    ensures StripTerminators(a + b) == StripTerminators(a) + StripTerminators(b)
  {
    if a == [] {
      assert a + b == b;
    } else {
      assert (a + b)[1..] == a[1..] + b;
      StripTerminatorsAppend(a[1..], b);
    }
  }

  lemma {:induction false} StripTerminatorsOfPlainText(s: string)
    requires forall i :: 0 <= i < |s| ==> !IsLineTerminator(s[i])
    ensures StripTerminators(s) == s
  {
    if s != [] {
      StripTerminatorsOfPlainText(s[1..]);
    }
  }

  /** Index of the first line terminator in `s`, or `|s|` if there is none. */
  function LineEnd(s: string): (k: nat)
    ensures k <= |s|
    ensures forall j :: 0 <= j < k ==> !IsLineTerminator(s[j])
    ensures k < |s| ==> IsLineTerminator(s[k])
  {
    if s == [] || IsLineTerminator(s[0]) then 0 else 1 + LineEnd(s[1..])
  }

  /**
   * `BufferedReader.readLine` on the remaining decoded text: `None` (Java
   * `null`) at the end; otherwise the characters up to the next `\n`, `\r`
   * or `\r\n`, without the terminator, and the text after it.
   */
  function ReadLine(s: string): (r: Option<(string, string)>)
    ensures r.None? <==> s == []
    ensures r.Some? ==> |r.value.1| < |s|
  {
    if s == [] then None
    else
      var k := LineEnd(s);
      if k == |s| then Some((s, []))
      else if s[k] == '\r' && k + 1 < |s| && s[k + 1] == '\n' then Some((s[..k], s[k + 2..]))
      else Some((s[..k], s[k + 1..]))
  }

  /** Removing terminators from a terminator followed by `rest` leaves `rest` stripped. */
  lemma StripLeadingTerminator(s: string)
    requires s != [] && IsLineTerminator(s[0])
    ensures StripTerminators(s) == StripTerminators(s[1..])
  {
  }

  /** Reading one line moves exactly that line, minus its terminator, to the output. */
  lemma ReadLineConsumesOneLine(s: string)
    requires s != []
    ensures var (line, rest) := ReadLine(s).value;
      && (forall i :: 0 <= i < |line| ==> !IsLineTerminator(line[i]))
      && StripTerminators(s) == line + StripTerminators(rest)
  {
    var k := LineEnd(s);
    var line, tail := s[..k], s[k..];
    assert s == line + tail;
    StripTerminatorsAppend(line, tail);
    StripTerminatorsOfPlainText(line);
    assert StripTerminators(s) == line + StripTerminators(tail);
    if k < |s| {
      assert tail[1..] == s[k + 1..];
      StripLeadingTerminator(tail);
      if s[k] == '\r' && k + 1 < |s| && s[k + 1] == '\n' {
        var afterCr := s[k + 1..];
        assert afterCr[1..] == s[k + 2..];
        StripLeadingTerminator(afterCr);
      }
    }
  }

  /**
   * `readFromStream`: every line of the stream appended to the output with
   * no separator, so the output is the decoded text with all line
   * terminators removed; a null stream (`None`) gives the empty string.
   */
  method ReadFromStream(inputStream: Option<string>) returns (output: string)
    ensures inputStream.None? ==> output == ""
    ensures inputStream.Some? ==> output == StripTerminators(inputStream.value)
  {
    output := "";
    if inputStream.Some? {
      var rest := inputStream.value;
      var line := ReadLine(rest);
      while line.Some?
        invariant line == ReadLine(rest)
        invariant output + StripTerminators(rest) == StripTerminators(inputStream.value)
        decreases |rest|
      {
        ReadLineConsumesOneLine(rest);
        output := output + line.value.0;
        rest := line.value.1;
        line := ReadLine(rest);
      }
    }
  }

  /*************************************************************************
   * The request decision
   *************************************************************************/

  /** A `java.net.URL` object, created from its text. */
  datatype Url = Url(spec: string)

  /**
   * What the network does with one GET request: an `IOException` before a
   * body could be read, or an answer with a status code, the decoded body
   * stream (`None`: a null stream) and whether closing that stream throws.
   */
  datatype Exchange =
    | TransportFailure
    | Answered(status: int, body: Option<string>, closeFails: bool)

  /**
   * `createUrl`: `isWellFormed` stands for the check `new URL(...)` makes;
   * a null or rejected text gives a null URL.
   */
  function CreateUrl(stringUrl: Option<string>, isWellFormed: string -> bool): (url: Option<Url>)
    ensures url.Some? <==> stringUrl.Some? && isWellFormed(stringUrl.value)
    ensures url.Some? ==> url.value.spec == stringUrl.value
  {
    if stringUrl.Some? && isWellFormed(stringUrl.value) then Some(Url(stringUrl.value)) else None
  }

  /** The body is read, and the stream later closed, only for status 200. */
  predicate ReadsBody(url: Option<Url>, exchange: Exchange) {
    url.Some? && exchange.Answered? && exchange.status == HttpOk
  }

  /**
   * `makeHttpRequest`. The result is the value the caller's `jsonResponse`
   * holds afterwards: `None` (still `null`) when closing the stream throws,
   * since that `IOException` escapes the method; otherwise the text read,
   * which is `""` for a null URL, a transport failure or any status but 200.
   */
  method MakeHttpRequest(url: Option<Url>, exchange: Exchange) returns (jsonResponse: Option<string>)
    ensures !ReadsBody(url, exchange) ==> jsonResponse == Some("")
    ensures ReadsBody(url, exchange) && exchange.body.None? ==> jsonResponse == Some("")
    ensures ReadsBody(url, exchange) && exchange.body.Some? ==>
      jsonResponse == if exchange.closeFails then None else Some(StripTerminators(exchange.body.value))
  {
    var response := "";
    if url.None? {
      return Some(response);
    }
    match exchange {
      case TransportFailure =>
      case Answered(status, body, closeFails) =>
        if status == HttpOk {
          response := ReadFromStream(body);
          if body.Some? && closeFails {
            return None;
          }
        }
    }
    return Some(response);
  }

  /**
   * `fetchArticleData`: create the URL, make the request, extract the
   * articles. Every failure before extraction ends in `None` (Java `null`),
   * because the text handed to the extraction is then null or empty; the
   * articles come only from a 200 answer with a non-empty body.
   */
  method FetchArticleData(requestUrl: Option<string>, isWellFormed: string -> bool,
                          exchange: Exchange, parse: string -> Option<Json>)
    returns (articles: Option<seq<Article>>)
    ensures CreateUrl(requestUrl, isWellFormed).None? ==> articles.None?
    ensures exchange.TransportFailure? || (exchange.Answered? && exchange.status != HttpOk) ==> articles.None?
    ensures exchange.Answered? && (exchange.body.None? || exchange.closeFails) ==> articles.None?
    ensures CreateUrl(requestUrl, isWellFormed).Some? && exchange.Answered? && exchange.status == HttpOk
            && exchange.body.Some? && !exchange.closeFails ==>
      articles == Extraction(Some(StripTerminators(exchange.body.value)), parse)
  {
    var url := CreateUrl(requestUrl, isWellFormed);
    var jsonResponse := MakeHttpRequest(url, exchange);
    articles := ExtractFeatureFromJson(jsonResponse, parse);
  }
}
