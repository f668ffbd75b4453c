/**
 * The Project model: its validations, the two boolean scopes, `to_param` (the id followed
 * by the parameterised title, which the public controller parses back), `excerpt` and
 * `description_html`.
 */
module Projects {
  import opened Wrappers
  import opened RubyStrings
  import Queries

  const ExcerptLimit: nat := 200

  /** A row of the projects table (the attributes the core reads). */
  datatype Project = Project(
    id: nat,
    title: Option<String>,
    description: Option<String>,
    techStack: Option<String>,
    featured: bool,
    published: bool,
    position: Option<int>,
    updatedAt: int)

  /** The validations: title, description and tech_stack present. */
  predicate Valid(p: Project) {
    PresentOpt(p.title) && PresentOpt(p.description) && PresentOpt(p.techStack)
  }

  /** `featured`: the rows whose flag is set, in table order. */
  function Featured(rows: seq<Project>): (r: seq<Project>)
    ensures forall k :: 0 <= k < |r| ==> r[k] in rows && r[k].featured
    ensures forall k :: 0 <= k < |rows| && rows[k].featured ==> rows[k] in r
  {
    Queries.Filter(rows, (p: Project) => p.featured)
  }

  /** `published`: the rows whose flag is set, in table order. */
  function Published(rows: seq<Project>): (r: seq<Project>)
    ensures forall k :: 0 <= k < |r| ==> r[k] in rows && r[k].published
    ensures forall k :: 0 <= k < |rows| && rows[k].published ==> rows[k] in r
  {
    Queries.Filter(rows, (p: Project) => p.published)
  }

  /** `to_param`: the decimal id, a dash, and `title.parameterize` (`parameterize` is
      given); `None` when the title is nil, on which `parameterize` raises. */
  function ToParam(p: Project, parameterize: String -> String): (r: Option<String>)
    ensures r.Some? <==> p.title.Some?
    ensures r.Some? ==> r.value == Decimal(p.id) + "-" + parameterize(p.title.value)
  {
    if p.title.None? then None else Some(Decimal(p.id) + "-" + parameterize(p.title.value))
  }

  /** `excerpt`: the description (nil reads as empty) truncated to 200 characters. */
  function Excerpt(p: Project): (r: String)
    ensures |r| <= ExcerptLimit
    ensures |OrEmpty(p.description)| <= ExcerptLimit ==> r == OrEmpty(p.description)
    ensures |OrEmpty(p.description)| > ExcerptLimit ==>
      |r| == ExcerptLimit && r[..ExcerptLimit - 3] == OrEmpty(p.description)[..ExcerptLimit - 3]
  {
    Truncate(OrEmpty(p.description), ExcerptLimit)
  }

  /** `description_html`: the description itself, or empty when nil. */
  function DescriptionHtml(p: Project): (r: String)
    ensures p.description.Some? ==> r == p.description.value
    ensures p.description.None? ==> r == []
  {
    OrEmpty(p.description)
  }

  /** A valid project's excerpt is never empty, and is its description when that is short. */
  lemma ValidExcerpt(p: Project)
    requires Valid(p)
    ensures Excerpt(p) != []
    ensures |p.description.value| <= ExcerptLimit ==> Excerpt(p) == DescriptionHtml(p)
  {
    assert p.description.value != [];
  }
}
