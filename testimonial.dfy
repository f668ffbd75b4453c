/**
 * The Testimonial model: its validations, the `featured` scope and `display_name`.
 */
module Testimonials {
  import opened Wrappers
  import opened RubyStrings
  import Queries

  datatype Testimonial = Testimonial(quote: Option<String>, clientName: Option<String>, company: Option<String>, featured: bool)

  /** The validations: quote and client_name present. */
  predicate Valid(t: Testimonial) {
    PresentOpt(t.quote) && PresentOpt(t.clientName)
  }

  /** `featured`: the rows whose flag is set, in table order. */
  function Featured(rows: seq<Testimonial>): (r: seq<Testimonial>)
    ensures forall k :: 0 <= k < |r| ==> r[k] in rows && r[k].featured
    ensures forall k :: 0 <= k < |rows| && rows[k].featured ==> rows[k] in r
  {
    Queries.Filter(rows, (t: Testimonial) => t.featured)
  }

  /** `display_name`: "client, company" when the company is present (a nil client name
      interpolating as empty), otherwise the client name as it is. */
  function DisplayName(t: Testimonial): (r: Option<String>)
    ensures PresentOpt(t.company) ==> r == Some(OrEmpty(t.clientName) + ", " + t.company.value)
    ensures BlankOpt(t.company) ==> r == t.clientName
  {
    if PresentOpt(t.company) then Some(OrEmpty(t.clientName) + ", " + t.company.value) else t.clientName
  }

  /** A valid testimonial always has a name to display, which starts with the client's name
      and is exactly that name when the company is nil, empty or only white space. */
  lemma DisplayNameOfValid(t: Testimonial)
    requires Valid(t)
    ensures DisplayName(t).Some?
    ensures StartsWith(DisplayName(t).value, t.clientName.value)
    ensures BlankOpt(t.company) <==> DisplayName(t).value == t.clientName.value
  {
    var name := t.clientName.value;
    if PresentOpt(t.company) {
      var r := DisplayName(t).value;
      assert r[..|name|] == name;
      assert |r| > |name|;
    }
  }
}
