/**
 * src/templates.rs: the three page texts (banner, error page, directory
 * listing) and the `{{key}}` placeholder substitution.
 *
 * `Templates::load` embeds the page files in the binary; their texts are not
 * part of this model, so the loaded set is a parameter `builtin`.  `render`
 * looks its page up through `from_enum`, which loads the built-in set again,
 * so the receiver's own fields never reach the output.
 */
module Templating {
  import opened Wrappers
  import opened Text

  datatype TemplatesPage = Banner | Error | Directory

  datatype Templates = Templates(banner: string, error: string, directory: string)

  /** Templates::from_enum: the page text of the loaded set; every page is registered. */
  function FromEnum(builtin: Templates, page: TemplatesPage): (r: Option<string>)
    ensures r.Some?
    ensures page == Banner ==> r.value == builtin.banner
    ensures page == Error ==> r.value == builtin.error
    ensures page == Directory ==> r.value == builtin.directory
  {
    match page
    case Banner => Some(builtin.banner)
    case Error => Some(builtin.error)
    case Directory => Some(builtin.directory)
  }

  /** The text a parameter's value replaces. */
  function Placeholder(key: string): (r: string)
    ensures |r| == |key| + 4 && StartsWith(r, "{{") && EndsWith(r, "}}")
  {
    "{{" + key + "}}"
  }

  /** One iteration of the parameter loop: an empty value is skipped. */
  function Apply(content: string, param: (string, string)): string {
    if param.1 == "" then content else Replace(content, Placeholder(param.0), param.1)
  }

  /** The parameter loop over the parameters in iteration order. */
  function Substitute(content: string, params: seq<(string, string)>): (r: string)
    ensures (forall i :: 0 <= i < |params| ==> params[i].1 == "") ==> r == content
    decreases |params|
  {
    if params == [] then content else Substitute(Apply(content, params[0]), params[1..])
  }

  /** Templates::render. `self` is accepted and not read, as in the source. */
  method Render(self: Templates, builtin: Templates, page: TemplatesPage, params: seq<(string, string)>)
    returns (content: string)
    ensures content == Substitute(FromEnum(builtin, page).value, params)
  {
    content := FromEnum(builtin, page).value;
    var i := 0;
    while i < |params|
      invariant 0 <= i <= |params|
      invariant Substitute(content, params[i..]) == Substitute(FromEnum(builtin, page).value, params)
    {
      var (key, value) := params[i];
      if value != "" {
        content := Replace(content, Placeholder(key), value);
      }
      assert params[i..][1..] == params[i + 1..];
      i := i + 1;
    }
  }

  /** Without parameters the page text comes back unchanged. */
  lemma SubstituteNoParams(content: string)
    ensures Substitute(content, []) == content
  {
  }

  /** The parameters with non-empty values, in order. */
  function NonEmpty(params: seq<(string, string)>): seq<(string, string)>
    decreases |params|
  {
    if params == [] then []
    else (if params[0].1 == "" then [] else [params[0]]) + NonEmpty(params[1..])
  }

  /** Dropping every parameter with an empty value does not change the result. */
  lemma {:induction false} SubstituteDropsEmpty(content: string, params: seq<(string, string)>)
    ensures Substitute(content, NonEmpty(params)) == Substitute(content, params)
    decreases |params|
  {
    if params != [] {
      SubstituteDropsEmpty(Apply(content, params[0]), params[1..]);
      if params[0].1 != "" {
        var kept := NonEmpty(params);
        assert kept == [params[0]] + NonEmpty(params[1..]);
        assert kept[1..] == NonEmpty(params[1..]);
      } else {
        assert NonEmpty(params) == [] + NonEmpty(params[1..]) == NonEmpty(params[1..]);
        assert Apply(content, params[0]) == content;
      }
    }
  }

  /** A parameter with an empty value can be dropped without changing the result. */
  lemma SubstituteSkipsEmpty(content: string, key: string, params: seq<(string, string)>)
    ensures Substitute(content, [(key, "")] + params) == Substitute(content, params)
  {
    assert ([(key, "")] + params)[1..] == params;
  }

  /** A text holding none of the parameters' placeholders is returned unchanged: placeholders
      without a matching parameter stay in the output literally. */
  lemma {:induction false} SubstituteKeepsUnmatched(content: string, params: seq<(string, string)>)
    requires forall i :: 0 <= i < |params| ==> !Contains(content, Placeholder(params[i].0))
    ensures Substitute(content, params) == content
    decreases |params|
  {
    if params != [] {
      if params[0].1 != "" {
        ReplaceAbsent(content, Placeholder(params[0].0), params[0].1);
      }
      assert Apply(content, params[0]) == content;
      SubstituteKeepsUnmatched(content, params[1..]);
    }
  }

  /** A single non-empty parameter replaces every occurrence of its placeholder: the text
      is made of pieces free of the placeholder joined by it, and the result is the same
      pieces joined by the value. The value appears in the result whenever the placeholder
      occurred. */
  lemma SubstituteSingle(content: string, key: string, value: string)
    requires value != ""
    ensures var pieces := Split(content, Placeholder(key));
            && Join(pieces, Placeholder(key)) == content
            && (forall k :: 0 <= k < |pieces| ==> !Contains(pieces[k], Placeholder(key)))
            && Substitute(content, [(key, value)]) == Join(pieces, value)
    ensures Contains(content, Placeholder(key)) ==> Contains(Substitute(content, [(key, value)]), value)
  {
    JoinSplit(content, Placeholder(key));
    SplitPiecesFree(content, Placeholder(key));
    if Contains(content, Placeholder(key)) {
      ReplaceInserts(content, Placeholder(key), value);
    }
  }

  /** The substitution cases of the mock template tests. */
  lemma MockBannerWithName()
    ensures Contains(Substitute("Welcome, {{username}}!", [("username", "Alice")]), "Alice")
  {
    var t := "Welcome, {{username}}!";
    assert t[9..21] == Placeholder("username");
    ContainsAt(t, Placeholder("username"), 9);
    SubstituteSingle(t, "username", "Alice");
  }

  lemma MockBannerWithEmptyName()
    ensures Substitute("Welcome, {{username}}!", [("username", "")]) == "Welcome, {{username}}!"
  {
  }

  lemma MockErrorWithoutParams()
    ensures Contains(Substitute("Error: {{message}}", []), "{{")
  {
    assert "Error: {{message}}"[7..9] == "{{";
    ContainsAt("Error: {{message}}", "{{", 7);
  }
}
