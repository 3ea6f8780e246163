# GuardianTech feed core in Dafny

GuardianTech is a small Android news reader. It requests the technology
section of a content API, turns the JSON response into a list of articles
and shows them in a scrolling list, with the publication date reformatted
for display. This project models that core and proves properties about it:

- `wrappers.dfy`: `Option`, which stands for Java's nullable references.
  It is failure-compatible, so `:-` models an exception that leaves a block.
- `json_tree.dfy` (module `JsonTree`): a parsed JSON document. It also
  models the org.json lookups the extraction uses: `getJSONObject`,
  `getJSONArray`, `getString` and `getJSONObject(i)`.
- `article.dfy` (module `Articles`): the immutable six-field article record.
  The author is `Option<string>`.
- `query_utils.dfy` (module `QueryUtils`): everything in `QueryUtils.java`.
  - `createUrl`, and the status decision in `makeHttpRequest`.
  - `readFromStream`: a loop over `readLine`, proved to drop every line terminator.
  - `extractFeatureFromJSON`: a loop proved equal to the pure function
    `Extraction`. Lemmas then show that its result is the longest
    well-formed prefix of `response.results`.
  - `fetchArticleData`, which composes the three steps.
- `article_adapter.dfy` (module `ArticleAdapterModel`): the adapter.
  - `ArticleList` is the mutable `List<Article>`. It is shared by reference.
  - `ArticleAdapter` keeps the caller's list itself. `clearArticles` and
    `addData` change that list in place.
  - `Bind` builds the values a row shows.
  - `FormatDate` reformats `yyyy-MM-dd'T'HH:mm:ss'Z'` to `dd-MM-yyyy`.

Inputs the original takes from its environment become parameters:
- the JSON text parser is `parse: string -> Option<Json>`, where `None` means the text is not JSON;
- the syntax check of `new URL(...)` is `isWellFormed: string -> bool`;
- the network exchange is the `Exchange` value. It is either an
  `IOException` before the body is read, or an answer with a status code,
  the decoded body stream, and whether closing that stream throws.

## Model

| member | source | states |
|---|---|---|
| QueryUtils.ExtractFeatureFromJson | app/src/main/java/com/example/android/guardiantech/QueryUtils.java:137-188 | The loop appends one article per result item, in order. It stops at the first item whose lookups throw. Its result equals `Extraction`: null for null or empty text, an empty list when the structure is missing, otherwise `ParsedPrefix(results, ParseItem)`. |
| QueryUtils.ParsedPrefix | app/src/main/java/com/example/android/guardiantech/QueryUtils.java:154-187 | The loop's output has at most as many entries as there are items. Entry i is the value parsed from item i. When the output is shorter, the item just after it is rejected. So the output is the longest accepted prefix. |
| QueryUtils.ParsedPrefixStep | app/src/main/java/com/example/android/guardiantech/QueryUtils.java:154-181 | One turn of the loop: a rejected item ends the output there; an accepted one adds its article before the rest. |
| QueryUtils.LongestPrefixIsUnique | app/src/main/java/com/example/android/guardiantech/QueryUtils.java:154-187 | Any list with the longest-accepted-prefix property is the extraction's list, so that property determines the result. |
| QueryUtils.ItemsAfterRejectedIgnored | app/src/main/java/com/example/android/guardiantech/QueryUtils.java:183-187 | Once an item has been rejected, appending more items never changes the result. The exception is caught outside the loop. |
| QueryUtils.NullOnlyForNullOrEmptyText | app/src/main/java/com/example/android/guardiantech/QueryUtils.java:137-141 | The result is null if and only if the text is null or empty. Null is distinct from an empty list. |
| QueryUtils.MissingStructureGivesEmptyList | app/src/main/java/com/example/android/guardiantech/QueryUtils.java:144-187 | Non-empty text that is not a JSON object, or that lacks the `response` object or the `results` array, gives an empty, non-null list. |
| QueryUtils.ExtractionIsLongestWellFormedPrefix | app/src/main/java/com/example/android/guardiantech/QueryUtils.java:154-187 | For text that parses to an object whose `response` object holds the `results` array, entry i is built from `results[i]`, and that item is not malformed. The list stops at the first malformed item. Its length equals the number of items if and only if no item is malformed. |
| QueryUtils.MalformedIffParseFails | app/src/main/java/com/example/android/guardiantech/QueryUtils.java:155-168 | An item fails if and only if it is malformed: it is not an object, a required string is missing, `fields` is not an object, `tags` is not an array, or `tags[0]` is not an object. |
| QueryUtils.FieldMapping | app/src/main/java/com/example/android/guardiantech/QueryUtils.java:156-179 | Fields are copied unchanged: `fields.headline` and `fields.thumbnail`, `sectionName` into the category, then `webUrl` and `webPublicationDate`. Empty `tags` gives no author; otherwise the author is the `webTitle` of `tags[0]`. |
| QueryUtils.OnlyFirstTagMatters | app/src/main/java/com/example/android/guardiantech/QueryUtils.java:167-168 | Replacing every tag after the first never changes the parsed item. |
| QueryUtils.MissingWebTitleKeepsItem | app/src/main/java/com/example/android/guardiantech/QueryUtils.java:170-180 | When the first tag has no `webTitle` string, the item is still appended, with no author. |
| QueryUtils.ReadLineConsumesOneLine | app/src/main/java/com/example/android/guardiantech/QueryUtils.java:124-128 | One `readLine` returns a line free of terminators. Removing every terminator from the text gives that line followed by the stripped remainder. |
| QueryUtils.ReadFromStream | app/src/main/java/com/example/android/guardiantech/QueryUtils.java:119-131 | Lines are appended with no separator. The output is the decoded text with every `\n` and `\r` removed. A null stream gives `""`. |
| QueryUtils.CreateUrl | app/src/main/java/com/example/android/guardiantech/QueryUtils.java:64-72 | A URL exists if and only if the text is non-null and well-formed, and it keeps that text. Otherwise the URL is null. |
| QueryUtils.MakeHttpRequest | app/src/main/java/com/example/android/guardiantech/QueryUtils.java:77-113 | A null URL, a transport failure or any status other than 200 leaves `""`. Status 200 gives the read body, or `""` for a null stream. The exception is a failing close of the stream: it escapes, and the caller's response stays null. |
| QueryUtils.FetchArticleData | app/src/main/java/com/example/android/guardiantech/QueryUtils.java:41-59 | A malformed URL, a transport failure, a status other than 200, a null stream or a failing close gives null. A 200 answer gives the extraction of its body with the line terminators removed. |
| Articles.GettersReturnConstructorArguments | app/src/main/java/com/example/android/guardiantech/Article.java:12-44 | Each getter returns the constructor argument in its position. The author may be absent, and the date is the raw string. |
| Articles.GettersDetermineArticle | app/src/main/java/com/example/android/guardiantech/Article.java:5-20 | The six getters determine the record. It has no other state. |
| ArticleAdapterModel.ArticleAdapter.constructor | app/src/main/java/com/example/android/guardiantech/ArticleAdapter.java:28-31 | The adapter keeps the caller's list object itself, not a copy, so changes are visible through both references. |
| ArticleAdapterModel.ArticleAdapter.GetItemCount | app/src/main/java/com/example/android/guardiantech/ArticleAdapter.java:46-48 | The count is the size of the backing list. |
| ArticleAdapterModel.ArticleAdapter.ClearArticles | app/src/main/java/com/example/android/guardiantech/ArticleAdapter.java:90-93 | Afterwards the backing list is empty and the count is 0. |
| ArticleAdapterModel.ArticleAdapter.AddData | app/src/main/java/com/example/android/guardiantech/ArticleAdapter.java:98-101 | `data`'s articles are appended in order after the existing ones. Earlier entries are unchanged, and the count grows by `data`'s size. |
| ArticleAdapterModel.ArticleAdapter.OnBindViewHolder | app/src/main/java/com/example/android/guardiantech/ArticleAdapter.java:41-43 | For a position below the count, the row is the binding of the article at that position. |
| ArticleAdapterModel.Bind | app/src/main/java/com/example/android/guardiantech/ArticleAdapter.java:65-84 | A row shows the category, headline, formatted date, author and thumbnail, and a click opens the web URL. Binding fails if and only if the date cannot be formatted. |
| ArticleAdapterModel.FormatDate | app/src/main/java/com/example/android/guardiantech/ArticleAdapter.java:110-122 | Formatting succeeds if and only if the input is an exact, in-range timestamp. It then yields a `dd-MM-yyyy` string that shows the same year, month and day as the input. |
| ArticleAdapterModel.FormatDateRearrangesDigits | app/src/main/java/com/example/android/guardiantech/ArticleAdapter.java:110-122 | The output consists of the input's day digits, a dash, its month digits, a dash, then its year digits. |
| ArticleAdapterModel.TimeOfDayIgnored | app/src/main/java/com/example/android/guardiantech/ArticleAdapter.java:110-122 | Two valid timestamps with the same date part format the same way, so the time never matters. |
| ArticleAdapterModel.FormatDateExample | app/src/main/java/com/example/android/guardiantech/ArticleAdapter.java:110-122 | `2021-03-15T10:00:00Z` is shown as `15-03-2021`. |
| ArticleAdapterModel.LateTimestampKeepsItsDay | app/src/main/java/com/example/android/guardiantech/ArticleAdapter.java:110-122 | The last second of a day, `2021-03-15T23:59:59Z`, is shown like that day's morning, as `15-03-2021`: no time zone shift moves it to the next day. |

## Left out

- Parsing JSON text (`new JSONObject(String)`) is not modelled. It is the `parse` parameter.
- GetString (module `JsonTree`): succeeds only for a JSON string. Android's org.json turns any non-null value into text: numbers, booleans, `JSONObject.NULL`, objects and arrays (as their JSON text). That coercion is not modelled, so an item whose `sectionName`, say, is an object counts as malformed here.
- The network is not modelled: `HttpURLConnection`, the 10 s read and 15 s connect timeouts, `connect`, and `disconnect` in the `finally` block.
- UTF-8 decoding is not modelled. The stream is the already-decoded text.
- `BufferedReader` buffering is not modelled. `ReadLine` gives its line splitting on the whole text.
- MakeHttpRequest: when a failure on the read path is followed by a failing `close`, the escaping exception is not modelled. In that case the result is `""` rather than null, and both still lead to a null article list.
- The `java.net.URL` syntax rules are not modelled. They are the `isWellFormed` parameter.
- MakeHttpRequest: treats every URL as HTTP. A well-formed URL with another scheme (`file:`, `ftp:`, `jar:`) makes the cast of `openConnection()` to `HttpURLConnection` throw an unchecked `ClassCastException`. Neither `catch (IOException)` handles it, so it escapes `fetchArticleData`. The model has no outcome for that exception: MakeHttpRequest and FetchArticleData give the result of the `Exchange` value instead.
- FormatDate: gives a failure for every input outside the exact pattern with a valid Gregorian date from year 1583 to 9999 and an in-range time. The original fails only where parsing throws. `SimpleDateFormat` is lenient with the other inputs, and the model does not capture that:
  - an out-of-range field rolls over, so `2021-02-29T10:00:00Z` is shown as `01-03-2021`, where the model gives a failure;
  - digit runs of other widths are accepted;
  - trailing characters are ignored;
  - dates before the 1582 calendar change are read in the Julian calendar.
- Locale and daylight-saving effects of `SimpleDateFormat` are not modelled.
- FormatDate: where the original hands a null date to `format` and throws a `NullPointerException`, the model returns `None`. `Bind` passes that failure on.
- OnBindViewHolder: requires a position below the count, which the list view guarantees. The `IndexOutOfBoundsException` for other positions is not modelled.
- The UI side of the adapter is not modelled: view inflation, `setText`, Glide image loading, click listeners and `notifyDataSetChanged`.
- `ArticleLoader.java` is background threading around `fetchArticleData`, plus a null-URL check. It is not part of this model.
- `MainActivity.java` is not part of this model: the connectivity check, menus and Custom Tabs. Its clear-then-add list handling is the two adapter methods above.
- Logging is not modelled.
