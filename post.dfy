/**
 * The blog Post model: the comma-separated tag list and its normalisation, the publish
 * rules (the `published?` predicate and the `published` scope), the excerpt, and `save`
 * with its callbacks in the order Rails runs them: the slug and the default author before
 * validation, then the validations, then the tags and the publish time before the write.
 */
module Posts {
  import opened Wrappers
  import opened RubyStrings
  import Queries

  const DefaultAuthor: String := "Tim"
  const ExcerptLimit: nat := 200

  // ---------------------------------------------------------------------------
  // Tags

  /** A normalised tag: stripped, not blank, and free of the separator. */
  predicate IsTag(t: String) {
    t != [] && Strip(t) == t && ',' !in t
  }

  predicate NotBlank(s: String) {
    !Blank(s)
  }

  /** The comma-separated parts of `v`, stripped, blank ones dropped, in order. */
  function TagParts(v: String): (r: seq<String>)
    ensures forall k :: 0 <= k < |r| ==> IsTag(r[k])
  {
    var parts := Queries.Map(Split(v, ','), Strip);
    var kept := Queries.Filter(parts, NotBlank);
    assert forall k :: 0 <= k < |kept| ==> IsTag(kept[k]) by {
      forall k | 0 <= k < |kept| ensures IsTag(kept[k]) {
        var j :| 0 <= j < |parts| && parts[j] == kept[k];
        StrippedFieldIsTag(v, j);
      }
    }
    kept
  }

  /** A field of `v` that is not blank once stripped is, stripped, a tag. */
  lemma StrippedFieldIsTag(v: String, j: nat)
    requires j < |Split(v, ',')| && NotBlank(Strip(Split(v, ',')[j]))
    ensures IsTag(Strip(Split(v, ',')[j]))
  {
    var field := Split(v, ',')[j];
    SplitFree(v, ',');
    assert ',' !in field;
    StripKeepsAbsent(field, ',');
    StripIdempotent(field);
  }

  /** `strip` removes a NUL at a part's end as it does white space, so a part that is only
      a NUL is dropped. */
  lemma TagPartsDropNul()
    ensures TagParts("x,\0") == ["x"]
  {
    SplitOfXNul();
    StripOfXNul();
    KeepNotBlank();
  }

  lemma StripOfXNul()
    ensures Queries.Map(["x", "\0"], Strip) == ["x", ""]
  {
    var fields: seq<String> := ["x", "\0"];
    var m := Queries.Map(fields, Strip);
    assert |m| == 2 && m[0] == Strip(fields[0]) && m[1] == Strip(fields[1]);
    StripOfX();
    StripOfNul();
    assert m[0] == "x" && m[1] == "";
  }

  lemma KeepNotBlank()
    ensures Queries.Filter(["x", ""], NotBlank) == ["x"]
  {
    var s: seq<String> := ["x", ""];
    assert !IsSpace(s[0][0]);
    assert s[1..][1..] == [];
  }

  lemma SplitOfXNul()
    ensures Split("x,\0", ',') == ["x", "\0"]
  {
    assert Join(["x", "\0"], ',') == "x,\0";
    SplitOfJoin(["x", "\0"], ',');
  }

  lemma StripOfNul()
    ensures Strip("\0") == []
  {
    var n := "\0";
    assert IsStripped(n[0]) && n[1..] == [];
    assert LStrip(n) == [];
  }

  lemma StripOfX()
    ensures Strip("x") == "x"
  {
    var x := "x";
    assert !IsStripped(x[0]);
    assert LStrip(x) == x && RStrip(x) == x;
  }

  /** `tag_list`: `tags.to_s` (nil reads as empty) split into its tags. */
  function TagList(tags: Option<String>): seq<String> {
    TagParts(OrEmpty(tags))
  }

  /** What `serialize_tags` stores for an assigned value: its tags joined by commas. */
  function NormalizeTags(v: String): String {
    Join(TagParts(v), ',')
  }

  /** Splitting normalised tags gives them back. */
  lemma {:induction false} TagPartsOfTags(tags: seq<String>)
    requires forall k :: 0 <= k < |tags| ==> IsTag(tags[k])
    ensures TagParts(Join(tags, ',')) == tags
  {
    SplitOfJoin(tags, ',');
    var parts := Queries.Map(tags, Strip);
    assert parts == tags by {
      forall k | 0 <= k < |tags| ensures parts[k] == tags[k] {
      }
    }
    FilterKeepsAll(tags);
  }

  /** Filtering for non-blank strings keeps a list of tags whole. */
  lemma {:induction false} FilterKeepsAll(tags: seq<String>)
    requires forall k :: 0 <= k < |tags| ==> IsTag(tags[k])
    ensures Queries.Filter(tags, NotBlank) == tags
    decreases |tags|
  {
    if tags != [] {
      var t := tags[0];
      assert IsTag(t);
      BlankIffStripEmpty(t);
      assert NotBlank(t);
      var rest := tags[1..];
      assert forall k :: 0 <= k < |rest| ==> rest[k] == tags[k + 1];
      FilterKeepsAll(rest);
      assert tags == [t] + rest;
    }
  }

  /** The round trip: after `tag_list = v` and a save, `tag_list` returns the tags of `v`;
      and normalising a second time changes nothing. */
  lemma TagListRoundTrip(v: String)
    ensures TagList(Some(NormalizeTags(v))) == TagParts(v)
    ensures NormalizeTags(NormalizeTags(v)) == NormalizeTags(v)
  {
    TagPartsOfTags(TagParts(v));
  }

  // ---------------------------------------------------------------------------
  // Publishing

  /** `published?` at time `now`. */
  predicate IsPublished(published: bool, publishedAt: Option<int>, now: int) {
    if !published then false
    else if publishedAt.Some? then publishedAt.value <= now
    else true
  }

  /** A stored post, as the `published` scope reads it. */
  datatype PostRow = PostRow(slug: String, published: bool, publishedAt: Option<int>)

  /** The condition of the `published` scope: `published = true AND (published_at IS NULL
      OR published_at <= now)`. */
  predicate InPublishedScope(r: PostRow, now: int) {
    r.published && (r.publishedAt.None? || r.publishedAt.value <= now)
  }

  function PublishedScope(rows: seq<PostRow>, now: int): seq<PostRow> {
    Queries.Filter(rows, r => InPublishedScope(r, now))
  }

  /** The scope lists exactly the posts for which `published?` holds, in table order. */
  lemma PublishedScopeAgrees(rows: seq<PostRow>, now: int)
    ensures forall k :: 0 <= k < |PublishedScope(rows, now)| ==>
      var r := PublishedScope(rows, now)[k];
      r in rows && IsPublished(r.published, r.publishedAt, now)
    ensures forall k :: 0 <= k < |rows| && IsPublished(rows[k].published, rows[k].publishedAt, now) ==>
      rows[k] in PublishedScope(rows, now)
  {
    var s := PublishedScope(rows, now);
    forall k | 0 <= k < |s| ensures IsPublished(s[k].published, s[k].publishedAt, now) {
      assert InPublishedScope(s[k], now);
    }
    forall k | 0 <= k < |rows| && IsPublished(rows[k].published, rows[k].publishedAt, now)
      ensures rows[k] in s
    {
      assert InPublishedScope(rows[k], now);
    }
  }

  /** `excerpt`: the content (nil reads as empty) truncated to 200 characters. */
  function Excerpt(content: Option<String>): (r: String)
    ensures |r| <= ExcerptLimit
    ensures |OrEmpty(content)| <= ExcerptLimit ==> r == OrEmpty(content)
    ensures |OrEmpty(content)| > ExcerptLimit ==>
      |r| == ExcerptLimit && r[..ExcerptLimit - 3] == OrEmpty(content)[..ExcerptLimit - 3]
  {
    Truncate(OrEmpty(content), ExcerptLimit)
  }

  // ---------------------------------------------------------------------------
  // The record

  class Post {
    var title: Option<String>
    var content: Option<String>
    var slug: Option<String>
    var author: Option<String>
    var tags: Option<String>
    var published: bool
    var publishedAt: Option<int>
    /** `@tag_list_cache`: the last value given to `tag_list=`, if any. */
    var tagListCache: Option<String>
    /** The title and the flag as last saved, against which Rails tracks changes. */
    var savedTitle: Option<String>
    var savedPublished: bool

    /** `Post.new(...)`: a new record, nothing saved yet (the flag's column default is false). */
    constructor (title: Option<String>, content: Option<String>, author: Option<String>,
                 tags: Option<String>, published: bool, publishedAt: Option<int>)
      ensures this.title == title && this.content == content && this.author == author
      ensures this.tags == tags && this.published == published && this.publishedAt == publishedAt
      ensures slug.None? && tagListCache.None? && savedTitle.None? && !savedPublished
    {
      this.title := title;
      this.content := content;
      this.author := author;
      this.tags := tags;
      this.published := published;
      this.publishedAt := publishedAt;
      slug := None;
      tagListCache := None;
      savedTitle := None;
      savedPublished := false;
    }

    /** `title=`. */
    method SetTitle(t: Option<String>)
      modifies this
      ensures title == t
      ensures content == old(content) && slug == old(slug) && author == old(author) && tags == old(tags)
      ensures published == old(published) && publishedAt == old(publishedAt)
      ensures tagListCache == old(tagListCache) && savedTitle == old(savedTitle) && savedPublished == old(savedPublished)
    {
      title := t;
    }

    /** `published=`. */
    method SetPublished(p: bool)
      modifies this
      ensures published == p
      ensures title == old(title) && content == old(content) && slug == old(slug) && author == old(author)
      ensures tags == old(tags) && publishedAt == old(publishedAt)
      ensures tagListCache == old(tagListCache) && savedTitle == old(savedTitle) && savedPublished == old(savedPublished)
    {
      published := p;
    }

    /** `tag_list=`: only remembered; the tags are rewritten when the record is saved. */
    method AssignTagList(value: Option<String>)
      modifies this
      ensures tagListCache == value
      ensures title == old(title) && content == old(content) && slug == old(slug) && author == old(author)
      ensures tags == old(tags) && published == old(published) && publishedAt == old(publishedAt)
      ensures savedTitle == old(savedTitle) && savedPublished == old(savedPublished)
    {
      tagListCache := value;
    }

    /** The record's validations: title, content and slug present, and the slug not
        taken by another post. */
    predicate Valid(takenSlugs: set<String>)
      reads this
    {
      PresentOpt(title) && PresentOpt(content) && PresentOpt(slug) && slug.value !in takenSlugs
    }

    /** `generate_slug` under its guard `title_changed?`: a present title that differs from
        the saved one gives a new slug; otherwise the slug is kept. */
    method GenerateSlug(parameterize: String -> String)
      modifies this
      ensures slug == (if old(title) != savedTitle && PresentOpt(title) then Some(parameterize(title.value)) else old(slug))
      ensures title == old(title) && content == old(content) && author == old(author) && tags == old(tags)
      ensures published == old(published) && publishedAt == old(publishedAt)
      ensures tagListCache == old(tagListCache) && savedTitle == old(savedTitle) && savedPublished == old(savedPublished)
    {
      if title != savedTitle && PresentOpt(title) {
        slug := Some(parameterize(title.value));
      }
    }

    /** `set_default_author`: a blank author becomes "Tim"; any other author is kept. */
    method SetDefaultAuthor()
      modifies this
      ensures author == (if BlankOpt(old(author)) then Some(DefaultAuthor) else old(author))
      ensures title == old(title) && content == old(content) && slug == old(slug) && tags == old(tags)
      ensures published == old(published) && publishedAt == old(publishedAt)
      ensures tagListCache == old(tagListCache) && savedTitle == old(savedTitle) && savedPublished == old(savedPublished)
    {
      if BlankOpt(author) {
        author := Some(DefaultAuthor);
      }
    }

    /** `serialize_tags`: only an assigned tag list rewrites the tags. */
    method SerializeTags()
      modifies this
      ensures tags == (if tagListCache.Some? then Some(NormalizeTags(tagListCache.value)) else old(tags))
      ensures title == old(title) && content == old(content) && slug == old(slug) && author == old(author)
      ensures published == old(published) && publishedAt == old(publishedAt)
      ensures tagListCache == old(tagListCache) && savedTitle == old(savedTitle) && savedPublished == old(savedPublished)
    {
      if tagListCache.Some? {
        tags := Some(NormalizeTags(tagListCache.value));
      }
    }

    /** `set_published_at`: when the flag is about to change to true and no publish time is
        set, the publish time becomes `now`; a set publish time is never overwritten. */
    method SetPublishedAt(now: int)
      modifies this
      ensures publishedAt == (if published != savedPublished && published && old(publishedAt).None?
                              then Some(now) else old(publishedAt))
      ensures old(publishedAt).Some? ==> publishedAt == old(publishedAt)
      ensures title == old(title) && content == old(content) && slug == old(slug) && author == old(author)
      ensures tags == old(tags) && published == old(published)
      ensures tagListCache == old(tagListCache) && savedTitle == old(savedTitle) && savedPublished == old(savedPublished)
    {
      if published != savedPublished && published && publishedAt.None? {
        publishedAt := Some(now);
      }
    }

    /** `save` at time `now`. `takenSlugs` are the other posts' slugs, against which the
        uniqueness validation checks; `parameterize` is `String#parameterize`. The
        before-validation callbacks run whether or not the record is then valid; the
        before-save ones and the write only when it is. */
    method Save(now: int, parameterize: String -> String, takenSlugs: set<String>) returns (saved: bool)
      modifies this
      ensures slug == (if old(title) != old(savedTitle) && PresentOpt(old(title))
                       then Some(parameterize(old(title).value)) else old(slug))
      ensures author == (if BlankOpt(old(author)) then Some(DefaultAuthor) else old(author))
      ensures saved <==> Valid(takenSlugs)
      ensures saved ==> tags == (if old(tagListCache).Some? then Some(NormalizeTags(old(tagListCache).value)) else old(tags))
      ensures saved ==> (publishedAt ==
        (if old(published) != old(savedPublished) && old(published) && old(publishedAt).None?
         then Some(now) else old(publishedAt)))
      ensures saved ==> savedTitle == title && savedPublished == published
      ensures !saved ==> tags == old(tags) && publishedAt == old(publishedAt)
      ensures !saved ==> savedTitle == old(savedTitle) && savedPublished == old(savedPublished)
      ensures title == old(title) && content == old(content) && published == old(published)
      ensures tagListCache == old(tagListCache)
    {
      GenerateSlug(parameterize);
      SetDefaultAuthor();
      if !Valid(takenSlugs) {
        return false;
      }
      SerializeTags();
      SetPublishedAt(now);
      savedTitle := title;
      savedPublished := published;
      saved := true;
    }
  }
}
