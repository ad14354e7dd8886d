/**
 * The plugin's post format helper: the service prefix of an account id,
 * the link shared with a post, and the text shared with it (content source,
 * custom text, hashtags, truncation budget). Host lookups and the content
 * helper's `mark_hashtags` / `token_truncate` are uninterpreted parameters.
 */
module PostFormatHelper {
  import opened Wrappers
  import Php

  /** The post format settings of one account. */
  datatype PostFormat = PostFormat(
    maximumLength: int,
    postContent: string,
    customMetaField: string,
    customText: string,
    customTextPos: string,
    hashtags: string,
    hashtagsLength: int,
    hashtagsCommon: string,
    hashtagsCustom: string,
    includeLink: bool,
    urlFromMeta: bool,
    urlMetaKey: string)

  /** A value the host returns for a custom field: a string, or anything else (an array, null). */
  datatype FieldValue = Text(text: string) | NotText

  /**
   * A post together with the host's lookups about it: `get_post_meta(id,
   * key, true)` as `meta` and `get_post_custom_values(key, id)` as
   * `customValues`; the permalink, category slugs and tag slugs as values.
   */
  datatype Post = Post(
    title: string,
    content: string,
    postType: string,
    permalink: string,
    categorySlugs: seq<string>,
    tagSlugs: seq<string>,
    meta: string -> string,
    customValues: string -> FieldValue)

  /**
   * The content helper. `markHashtags(content, tag)` is the marked content,
   * or None when the tag does not occur; `tokenTruncate(text, size,
   * noEllipsis)` is the truncation, `noEllipsis` recording whether
   * `use_ellipse(false)` was called on the helper before.
   */
  datatype ContentHelper = ContentHelper(
    markHashtags: (string, string) -> Option<string>,
    tokenTruncate: (string, int, bool) -> string)

  /**
   * Host text functions: `wp_strip_all_tags(html_entity_decode(s))`, and the
   * first match of the link pattern in a string.
   */
  datatype Host = Host(
    decodeAndStrip: string -> string,
    firstUrl: string -> Option<string>)

  // ----- set_post_format -----

  /** The service of an account id: its text before the first `_`. */
  function ServiceOf(accountId: string): (service: string)
    ensures '_' !in service
    ensures service <= accountId
    ensures service == accountId || accountId[|service|] == '_'
  {
    var parts := Php.Explode('_', accountId);
    assert |parts| > 1 ==> accountId == parts[0] + "_" + Php.Implode('_', parts[1..]);
    parts[0]
  }

  /** An account id built as `service_rest` yields its service back. */
  lemma ServiceOfAccount(service: string, rest: string)
    requires '_' !in service
    ensures ServiceOf(service + "_" + rest) == service
  {
    var id := service + "_" + rest;
    Php.IndexOfAfterFreePrefix(service, '_', rest);
    assert id[..|service|] == service;
  }

  // ----- build_url -----

  /** Whether the settings ask for the link to be read from a post meta field. */
  predicate MetaUrlEnabled(format: Option<PostFormat>) {
    && format.Some?
    && format.value.includeLink
    && format.value.urlFromMeta
    && !Php.IsEmpty(format.value.urlMetaKey)
  }

  /** `build_url(post)`. */
  function BuildUrl(format: Option<PostFormat>, post: Post, host: Host): (url: string)
    ensures !MetaUrlEnabled(format) ==> url == post.permalink
    ensures url == post.permalink
            || (MetaUrlEnabled(format) && host.firstUrl(post.meta(format.value.urlMetaKey)) == Some(url))
    ensures MetaUrlEnabled(format) && host.firstUrl(post.meta(format.value.urlMetaKey)).Some? ==>
              url == host.firstUrl(post.meta(format.value.urlMetaKey)).value
  {
    if MetaUrlEnabled(format) then
      match host.firstUrl(post.meta(format.value.urlMetaKey))
      case Some(found) => found
      case None => post.permalink
    else post.permalink
  }

  // ----- build_content: content source and custom text -----

  const NothingFound := "We found nothing here!!!"

  /** The content source chosen by `post_content`, before tags are stripped. */
  function RawContent(f: PostFormat, post: Post): (raw: string)
    ensures f.postContent == "post_title" ==> raw == post.title
    ensures f.postContent == "post_content" ==> raw == post.content
    ensures f.postContent == "post_title_content" ==> raw == post.title + " " + post.content
    ensures f.postContent == "custom_field" && post.customValues(f.customMetaField).NotText? ==> raw == ""
    ensures f.postContent == "custom_field" && post.customValues(f.customMetaField).Text? ==>
              raw == post.customValues(f.customMetaField).text
    ensures f.postContent !in {"post_title", "post_content", "post_title_content", "custom_field"} ==>
              raw == NothingFound
  {
    if f.postContent == "post_title" then post.title
    else if f.postContent == "post_content" then post.content
    else if f.postContent == "post_title_content" then post.title + " " + post.content
    else if f.postContent == "custom_field" then
      match post.customValues(f.customMetaField)
      case Text(s) => s
      case NotText => ""
    else NothingFound
  }

  /** Content with the custom text placed, and the length reserved for it. */
  datatype Placed = Placed(content: string, customLength: int)

  /**
   * Places the custom text, separated by one space, before the content when
   * the position is `beginning` and after it otherwise; the reserved length
   * is exactly what the content grew by.
   */
  function PlaceCustomText(content: string, customText: string, position: string): (p: Placed)
    ensures |p.content| == |content| + p.customLength
    ensures customText == "" ==> p == Placed(content, 0)
    ensures customText != "" ==> p.customLength == |customText| + 1
    ensures customText != "" && position == "beginning" ==>
              && p.content[..|customText|] == customText
              && p.content[|customText|] == ' '
              && p.content[|customText| + 1..] == content
    ensures customText != "" && position != "beginning" ==>
              && p.content[..|content|] == content
              && p.content[|content|] == ' '
              && p.content[|content| + 1..] == customText
  {
    if |customText| == 0 then Placed(content, 0)
    else if position == "beginning" then Placed(customText + " " + content, |customText| + 1)
    else Placed(content + " " + customText, |customText| + 1)
  }

  // ----- build_content: hashtags -----

  /** The hashtag appended for a candidate: ` #` and the candidate lower-cased without dashes. */
  function Hashtag(candidate: string): (tag: string)
    ensures |tag| >= 2 && tag[..2] == " #"
    ensures |tag| <= |candidate| + 2
    ensures '-' !in tag[2..]
    ensures forall i :: 2 <= i < |tag| ==> !Php.IsUpper(tag[i])
  {
    var lower := Php.StrToLower(candidate);
    var body := Php.RemoveAll(lower, '-');
    assert forall x :: x in lower ==> !Php.IsUpper(x);
    assert forall i :: 0 <= i < |body| ==> body[i] in lower;
    " #" + body
  }

  /**
   * The hashtag is ` #` and the candidate with its dashes deleted, then
   * lower-cased; a dash-free candidate is simply lower-cased, and each dash
   * shortens the tag by one.
   */
  lemma {:induction false} HashtagOfCandidate(candidate: string)
    ensures Hashtag(candidate) == " #" + Php.StrToLower(Php.RemoveAll(candidate, '-'))
    ensures '-' !in candidate ==> Hashtag(candidate) == " #" + Php.StrToLower(candidate)
    ensures |Hashtag(candidate)| == |candidate| + 2 - Php.Count(candidate, '-')
  {
    Php.RemoveAllLower(candidate, '-');
    if '-' !in candidate {
      Php.RemoveAllAbsent(candidate, '-');
    }
  }

  /** The content, the hashtags gathered so far, and the remaining hashtag budget. */
  datatype Tally = Tally(content: string, hashtags: string, budget: int)

  /**
   * One candidate of the hashtag loop. A candidate the content helper finds
   * in the content marks the content and costs one unit of budget;
   * otherwise its hashtag is appended when the candidate and the hashtags so
   * far fit the budget, or when the budget is 0 (no limit).
   */
  function AddHashtag(t: Tally, candidate: string, mark: (string, string) -> Option<string>): (r: Tally)
    ensures mark(t.content, candidate).Some? ==>
              r == Tally(mark(t.content, candidate).value, t.hashtags, t.budget - 1)
    ensures mark(t.content, candidate).None? ==> r.content == t.content && r.budget == t.budget
    ensures mark(t.content, candidate).None? ==>
              (r.hashtags == t.hashtags + Hashtag(candidate) <==>
                 |candidate| + |t.hashtags| <= t.budget || t.budget == 0)
    ensures r.hashtags == t.hashtags || r.hashtags == t.hashtags + Hashtag(candidate)
  {
    match mark(t.content, candidate)
    case Some(marked) => Tally(marked, t.hashtags, t.budget - 1)
    case None =>
      if |candidate| + |t.hashtags| <= t.budget || t.budget == 0 then
        t.(hashtags := t.hashtags + Hashtag(candidate))
      else t
  }

  /**
   * The hashtag loop over all candidates, in order. Hashtags only grow by
   * appending, each candidate costs at most one unit of budget, and the
   * content changes only if some candidate cost budget.
   */
  function AddHashtags(t: Tally, candidates: seq<string>, mark: (string, string) -> Option<string>): (r: Tally)
    ensures t.hashtags <= r.hashtags
    ensures t.budget - |candidates| <= r.budget <= t.budget
    ensures r.budget == t.budget ==> r.content == t.content
    decreases |candidates|
  {
    if |candidates| == 0 then t
    else AddHashtags(AddHashtag(t, candidates[0], mark), candidates[1..], mark)
  }

  /** Running the loop over `a + b` is running it over `a`, then over `b`. */
  lemma {:induction false} AddHashtagsSplit(t: Tally, a: seq<string>, b: seq<string>,
                                            mark: (string, string) -> Option<string>)
    ensures AddHashtags(t, a + b, mark) == AddHashtags(AddHashtags(t, a, mark), b, mark)
    decreases |a|
  {
    if |a| == 0 {
      assert a + b == b;
    } else {
      assert (a + b)[1..] == a[1..] + b;
      AddHashtagsSplit(AddHashtag(t, a[0], mark), a[1..], b, mark);
    }
  }

  /** The hashtags of all candidates, concatenated in order. */
  function AllHashtags(candidates: seq<string>): string
  {
    if |candidates| == 0 then "" else Hashtag(candidates[0]) + AllHashtags(candidates[1..])
  }

  /** The content helper finds none of the candidates in this content. */
  predicate NoneFound(content: string, candidates: seq<string>, mark: (string, string) -> Option<string>) {
    forall i :: 0 <= i < |candidates| ==> mark(content, candidates[i]).None?
  }

  /** With no limit and no candidate in the content, every candidate's hashtag is appended, in order. */
  lemma {:induction false} UnlimitedKeepsEveryHashtag(t: Tally, candidates: seq<string>,
                                                      mark: (string, string) -> Option<string>)
    requires t.budget == 0 && NoneFound(t.content, candidates, mark)
    ensures AddHashtags(t, candidates, mark) == t.(hashtags := t.hashtags + AllHashtags(candidates))
    decreases |candidates|
  {
    if |candidates| > 0 {
      assert mark(t.content, candidates[0]).None?;
      var t1 := t.(hashtags := t.hashtags + Hashtag(candidates[0]));
      assert NoneFound(t.content, candidates[1..], mark) by {
        forall i | 0 <= i < |candidates[1..]| ensures mark(t.content, candidates[1..][i]).None? {
          assert candidates[1..][i] == candidates[i + 1];
        }
      }
      UnlimitedKeepsEveryHashtag(t1, candidates[1..], mark);
    }
  }

  /**
   * With a positive budget and no candidate in the content, the hashtags
   * exceed the budget by at most the two characters of one ` #`.
   */
  lemma {:induction false} NoHitsStayWithinBudget(t: Tally, candidates: seq<string>,
                                                  mark: (string, string) -> Option<string>)
    requires t.budget > 0 && |t.hashtags| <= t.budget + 2 && NoneFound(t.content, candidates, mark)
    ensures |AddHashtags(t, candidates, mark).hashtags| <= t.budget + 2
    ensures AddHashtags(t, candidates, mark).budget == t.budget
    decreases |candidates|
  {
    if |candidates| > 0 {
      assert mark(t.content, candidates[0]).None?;
      var t1 := AddHashtag(t, candidates[0], mark);
      assert NoneFound(t.content, candidates[1..], mark) by {
        forall i | 0 <= i < |candidates[1..]| ensures mark(t.content, candidates[1..][i]).None? {
          assert candidates[1..][i] == candidates[i + 1];
        }
      }
      NoHitsStayWithinBudget(t1, candidates[1..], mark);
    }
  }

  /** A content helper that finds only the tag `news`, in any content. */
  function MarksNews(content: string, tag: string): Option<string> {
    if tag == "news" then Some(content) else None
  }

  /**
   * A budget brought down to 0 by in-content hits is then read as "no
   * limit": with a budget of 1, one hit lets the 5-character ` #tag` through.
   */
  lemma ExhaustedBudgetLiftsLimit()
    ensures var r := AddHashtags(Tally("news", "", 1), ["news", "tag"], MarksNews);
            && r.budget == 0
            && r.hashtags == " #tag"
            && |r.hashtags| > 1 + 2
  {
    var cands := ["news", "tag"];
    var t1 := Tally("news", "", 0);
    assert AddHashtag(Tally("news", "", 1), "news", MarksNews) == t1;
    var t2 := Tally("news", " #tag", 0);
    AppendsTag();
    assert cands[1..] == ["tag"];
    assert AddHashtags(t1, ["tag"], MarksNews) == AddHashtags(t2, [], MarksNews);
  }

  lemma AppendsTag()
    ensures AddHashtag(Tally("news", "", 0), "tag", MarksNews) == Tally("news", " #tag", 0)
  {
    assert MarksNews("news", "tag") == None;
    TagHashtag();
  }

  lemma TagHashtag()
    ensures Hashtag("tag") == " #tag"
  {
    Php.LowerKeepsLower("tag");
    Php.RemoveAllAbsent("tag", '-');
  }

  /**
   * The loop step with the limit test the budget evidently intends: "no
   * limit" is decided by the configured budget, not by what hits left of it.
   */
  function AddHashtagCapped(t: Tally, candidate: string, mark: (string, string) -> Option<string>,
                            configured: int): (r: Tally)
    ensures configured != 0 && r.hashtags != t.hashtags ==>
              |r.hashtags| <= t.budget + 2 && r.budget == t.budget
    ensures r.hashtags == t.hashtags || r.hashtags == t.hashtags + Hashtag(candidate)
    ensures r.budget == t.budget || r.budget == t.budget - 1
  {
    match mark(t.content, candidate)
    case Some(marked) => Tally(marked, t.hashtags, t.budget - 1)
    case None =>
      if |candidate| + |t.hashtags| <= t.budget || configured == 0 then
        t.(hashtags := t.hashtags + Hashtag(candidate))
      else t
  }

  function AddHashtagsCapped(t: Tally, candidates: seq<string>, mark: (string, string) -> Option<string>,
                             configured: int): (r: Tally)
    ensures r.budget <= t.budget
    decreases |candidates|
  {
    if |candidates| == 0 then t
    else AddHashtagsCapped(AddHashtagCapped(t, candidates[0], mark, configured), candidates[1..], mark, configured)
  }

  /** With the corrected test, a positive configured budget bounds the hashtags whatever the hits. */
  lemma {:induction false} CappedHashtagsWithinBudget(t: Tally, candidates: seq<string>,
                                                      mark: (string, string) -> Option<string>, configured: int)
    requires configured > 0 && t.budget <= configured && |t.hashtags| <= configured + 2
    ensures |AddHashtagsCapped(t, candidates, mark, configured).hashtags| <= configured + 2
    decreases |candidates|
  {
    if |candidates| > 0 {
      CappedHashtagsWithinBudget(AddHashtagCapped(t, candidates[0], mark, configured), candidates[1..], mark, configured);
    }
  }

  /** The corrected loop agrees with the original while the budget never reaches 0 by hits. */
  lemma {:induction false} CappedAgreesWithoutHits(t: Tally, candidates: seq<string>,
                                                   mark: (string, string) -> Option<string>)
    requires NoneFound(t.content, candidates, mark)
    ensures AddHashtagsCapped(t, candidates, mark, t.budget) == AddHashtags(t, candidates, mark)
    decreases |candidates|
  {
    if |candidates| > 0 {
      assert mark(t.content, candidates[0]).None?;
      var t1 := AddHashtag(t, candidates[0], mark);
      assert AddHashtagCapped(t, candidates[0], mark, t.budget) == t1;
      assert NoneFound(t.content, candidates[1..], mark) by {
        forall i | 0 <= i < |candidates[1..]| ensures mark(t.content, candidates[1..][i]).None? {
          assert candidates[1..][i] == candidates[i + 1];
        }
      }
      CappedAgreesWithoutHits(t1, candidates[1..], mark);
    }
  }

  // ----- build_content: hashtag sources -----

  /**
   * The candidates of the common hashtag list: spaces removed, split at
   * commas, every `#` removed from each piece.
   */
  function CommonCandidates(list: string): (candidates: seq<string>)
    ensures |candidates| >= 1
    ensures forall i :: 0 <= i < |candidates| ==>
              ' ' !in candidates[i] && ',' !in candidates[i] && '#' !in candidates[i]
  {
    var spaceless := Php.RemoveAll(list, ' ');
    var parts := Php.Explode(',', spaceless);
    forall i | 0 <= i < |parts| ensures ' ' !in parts[i] {
      Php.ImplodeContains(',', parts, i);
    }
    Php.RemoveAllEach(parts, '#')
  }

  /**
   * For every list, the candidates joined back with commas are the list with
   * every space and `#` deleted. As no candidate holds a comma, they are
   * exactly the comma-separated pieces of that cleaned list.
   */
  lemma {:induction false} CommonCandidatesRoundTrip(list: string)
    ensures Php.Implode(',', CommonCandidates(list)) == Php.RemoveAll(Php.RemoveAll(list, ' '), '#')
  {
    Php.RemoveAllImplode(',', Php.Explode(',', Php.RemoveAll(list, ' ')), '#');
  }

  /**
   * What the hashtag step leaves for the final assembly: the (possibly
   * marked) content, the length reserved for custom text, the hashtags, the
   * remaining budget, and whether `use_ellipse(false)` was called.
   */
  datatype Draft = Draft(content: string, customLength: int, hashtags: string, budget: int, noEllipsis: bool)

  /** Whether the custom hashtag field is skipped: no field name, no budget, or too long a value. */
  predicate CustomHashtagsSkipped(f: PostFormat, post: Post) {
    || Php.IsEmpty(f.hashtagsCustom)
    || f.hashtagsLength == 0
    || |post.meta(f.hashtagsCustom)| > f.hashtagsLength
  }

  /** The `custom-hashtags` branch: the field's value truncated to the budget, without ellipsis. */
  function CustomHashtags(f: PostFormat, post: Post, helper: ContentHelper, placed: Placed): (d: Draft)
    ensures d.content == placed.content && d.customLength == placed.customLength
    ensures d.budget == f.hashtagsLength
    ensures CustomHashtagsSkipped(f, post) ==> d.hashtags == "" && !d.noEllipsis
    ensures !CustomHashtagsSkipped(f, post) ==>
              d.noEllipsis && d.hashtags == helper.tokenTruncate(post.meta(f.hashtagsCustom), f.hashtagsLength, true)
  {
    var none := Draft(placed.content, placed.customLength, "", f.hashtagsLength, false);
    if Php.IsEmpty(f.hashtagsCustom) then none
    else
      var value := post.meta(f.hashtagsCustom);
      if f.hashtagsLength != 0 && |value| <= f.hashtagsLength then
        none.(hashtags := helper.tokenTruncate(value, f.hashtagsLength, true), noEllipsis := true)
      else none
  }

  /** The candidates the hashtag mode loops over; None for the modes without a loop. */
  function Candidates(f: PostFormat, post: Post): Option<seq<string>>
  {
    if f.hashtags == "common-hashtags" then Some(CommonCandidates(f.hashtagsCommon))
    else if f.hashtags == "categories-hashtags" then Some(if post.postType == "post" then post.categorySlugs else [])
    else if f.hashtags == "tags-hashtags" then Some(post.tagSlugs)
    else None
  }

  /** The `hashtags` switch of `build_content`. */
  function CollectHashtags(f: PostFormat, post: Post, helper: ContentHelper, placed: Placed): (d: Draft)
    ensures d.customLength == placed.customLength
    ensures Candidates(f, post).Some? ==>
              var r := AddHashtags(Tally(placed.content, "", f.hashtagsLength), Candidates(f, post).value,
                                   helper.markHashtags);
              d == Draft(r.content, placed.customLength, r.hashtags, r.budget, false)
    ensures Candidates(f, post).None? ==> d.budget == f.hashtagsLength && d.content == placed.content
    ensures Candidates(f, post).None? && f.hashtags != "custom-hashtags" ==> d.hashtags == "" && !d.noEllipsis
    ensures f.hashtags == "custom-hashtags" ==> d == CustomHashtags(f, post, helper, placed)
    ensures d.budget <= f.hashtagsLength
    ensures d.budget == f.hashtagsLength ==> d.content == placed.content
    ensures d.noEllipsis ==> f.hashtags == "custom-hashtags"
  {
    match Candidates(f, post)
    case Some(candidates) =>
      var r := AddHashtags(Tally(placed.content, "", f.hashtagsLength), candidates, helper.markHashtags);
      Draft(r.content, placed.customLength, r.hashtags, r.budget, false)
    case None =>
      if f.hashtags == "custom-hashtags" then CustomHashtags(f, post, helper, placed)
      else Draft(placed.content, placed.customLength, "", f.hashtagsLength, false)
  }

  // ----- build_content: assembly -----

  /** Everything `build_content` computes before its final line. */
  function Compose(f: PostFormat, post: Post, helper: ContentHelper, host: Host): Draft
  {
    var content := host.decodeAndStrip(RawContent(f, post));
    var placed := PlaceCustomText(content, f.customText, f.customTextPos);
    CollectHashtags(f, post, helper, placed)
  }

  /** The length the content is truncated to. */
  function TruncationSize(f: PostFormat, d: Draft): int {
    f.maximumLength - d.budget - d.customLength
  }

  /**
   * `build_content(post)`: `N/A` without settings; otherwise the content
   * truncated to the maximum length less the remaining hashtag budget and
   * the custom text's length, a space, and the hashtags.
   */
  function BuildContent(format: Option<PostFormat>, post: Post, helper: ContentHelper, host: Host): (text: string)
    ensures format.None? ==> text == "N/A"
    ensures format.Some? ==>
              var d := Compose(format.value, post, helper, host);
              && |text| > |d.hashtags|
              && text[|text| - |d.hashtags| - 1] == ' '
              && text[|text| - |d.hashtags|..] == d.hashtags
              && text[..|text| - |d.hashtags| - 1]
                 == helper.tokenTruncate(d.content, TruncationSize(format.value, d), d.noEllipsis)
  {
    match format
    case None => "N/A"
    case Some(f) =>
      var d := Compose(f, post, helper, host);
      var text := helper.tokenTruncate(d.content, TruncationSize(f, d), d.noEllipsis) + " " + d.hashtags;
      assert text[..|text| - |d.hashtags| - 1] == helper.tokenTruncate(d.content, TruncationSize(f, d), d.noEllipsis);
      text
  }

  /** Whether the helper's truncation never yields more than the size asked for. */
  ghost predicate TruncationBounded(helper: ContentHelper) {
    forall text: string, size: int, noEllipsis: bool ::
      |helper.tokenTruncate(text, size, noEllipsis)| <= (if size < 0 then 0 else size)
  }

  /**
   * With a positive hashtag budget, a helper that truncates within the size
   * and no hashtag found in the content, the shared text is at most the
   * maximum length, less the custom text's reserved length, plus 3: the
   * separating space and the ` #` of the last hashtag are not budgeted.
   */
  lemma PostTextLengthBound(f: PostFormat, post: Post, helper: ContentHelper, host: Host)
    requires TruncationBounded(helper)
    requires Candidates(f, post).Some? ==>
               var placed := PlaceCustomText(host.decodeAndStrip(RawContent(f, post)), f.customText, f.customTextPos);
               NoneFound(placed.content, Candidates(f, post).value, helper.markHashtags)
    requires f.hashtagsLength > 0
    requires f.maximumLength - f.hashtagsLength - (if f.customText == "" then 0 else |f.customText| + 1) >= 0
    ensures var customLength := if f.customText == "" then 0 else |f.customText| + 1;
            |BuildContent(Some(f), post, helper, host)| <= f.maximumLength - customLength + 3
  {
    var content := host.decodeAndStrip(RawContent(f, post));
    var placed := PlaceCustomText(content, f.customText, f.customTextPos);
    var d := CollectHashtags(f, post, helper, placed);
    match Candidates(f, post)
    case Some(candidates) =>
      NoHitsStayWithinBudget(Tally(placed.content, "", f.hashtagsLength), candidates, helper.markHashtags);
      assert d.budget == f.hashtagsLength && |d.hashtags| <= f.hashtagsLength + 2;
      assert |helper.tokenTruncate(d.content, TruncationSize(f, d), d.noEllipsis)| <= TruncationSize(f, d);
    case None =>
      assert |helper.tokenTruncate(d.content, TruncationSize(f, d), d.noEllipsis)| <= TruncationSize(f, d);
      if f.hashtags == "custom-hashtags" && !CustomHashtagsSkipped(f, post) {
        assert |helper.tokenTruncate(post.meta(f.hashtagsCustom), f.hashtagsLength, true)| <= f.hashtagsLength;
      }
  }

  /**
   * Without hashtags the budget is still reserved: the content is cut at the
   * maximum length less the hashtag budget and the custom text, and a
   * trailing space follows it.
   */
  lemma NoHashtagsKeepsReserve(f: PostFormat, post: Post, helper: ContentHelper, host: Host)
    requires f.hashtags == "no-hashtags"
    ensures var placed := PlaceCustomText(host.decodeAndStrip(RawContent(f, post)), f.customText, f.customTextPos);
            BuildContent(Some(f), post, helper, host)
            == helper.tokenTruncate(placed.content, f.maximumLength - f.hashtagsLength - placed.customLength, false) + " "
  {
  }
}
