/**
 * `<wpvs-macro-insert>` of js/wpvs-macro/wpvs-macro.js. Rendering looks for
 * the nearest `<wpvs-macro-define>` with the same `data-name`, searching the
 * children of the parent element and then of each ancestor, and copies its
 * content with every `$name$` placeholder replaced by the value of the
 * insert element's attribute `name` (URI-encoded when the name starts with
 * `url-`). One pass replaces, for each attribute in order, the first
 * occurrence of its placeholder; passes repeat until one changes nothing.
 * `encodeURI` is a parameter of the model.
 */
module Macro {
  import opened JsString
  import opened DomUtils

  /** An attribute of the insert element, in the order of `this.attributes`. */
  datatype Attribute = Attribute(name: string, value: string)

  /** A `<wpvs-macro-define>` element: its `data-name` and its `innerHTML`. */
  datatype Definition = Definition(name: string, html: string)

  /**
   * `this.dataset.name`, as it appears in the query string: the value of the
   * `data-name` attribute, or "undefined" when there is none.
   */
  function DataName(attrs: seq<Attribute>): (r: string)
    ensures (forall i :: 0 <= i < |attrs| ==> attrs[i].name != "data-name") ==> r == "undefined"
    ensures forall i :: 0 <= i < |attrs| && attrs[i].name == "data-name" && (forall j :: 0 <= j < i ==> attrs[j].name != "data-name") ==>
      r == attrs[i].value
  {
    if |attrs| == 0 then "undefined"
    else if attrs[0].name == "data-name" then attrs[0].value
    else
      assert forall i :: 1 <= i < |attrs| ==> attrs[i] == attrs[1..][i - 1];
      DataName(attrs[1..])
  }

  /** The query `wpvs-macro-define[data-name="<name>"]` as a test on a node. */
  function Selector(defs: map<Node, Definition>, name: string): Node -> bool
  {
    n => n in defs && defs[n].name == name
  }

  /** The definitions `upwardsSearch(this.parentElement, query)` returns, nearest first. */
  function Candidates(dom: Dom, parent: Option<Node>, defs: map<Node, Definition>, name: string): (r: seq<Node>)
    requires Acyclic(dom)
    ensures forall n :: n in r ==> n in defs && defs[n].name == name
  {
    if parent.None? then []
    else
      var r := Found(dom, Ancestors(dom, parent.value), Selector(defs, name));
      assert forall n :: n in r ==> Selector(defs, name)(n) by {
        forall n | n in r ensures Selector(defs, name)(n) {
          FoundMembers(dom, Ancestors(dom, parent.value), Selector(defs, name), n);
        }
      }
      r
  }

  /** A definition among the parent element's own children is preferred to any further up. */
  lemma NearestDefinitionWins(dom: Dom, parent: Node, defs: map<Node, Definition>, name: string)
    requires Acyclic(dom)
    requires |Matching(Children(dom, parent), Selector(defs, name))| > 0
    ensures var r := Candidates(dom, Some(parent), defs, name);
      |r| > 0 && r[0] == Matching(Children(dom, parent), Selector(defs, name))[0]
  {
    OwnChildrenFirst(dom, Ancestors(dom, parent), Selector(defs, name));
  }

  /** The placeholder of an attribute: `$` + name + `$`. */
  function Placeholder(name: string): string
  {
    "$" + name + "$"
  }

  /** The text an attribute's placeholder is replaced with. */
  function AttrValue(attr: Attribute, encode: string -> string): string
  {
    if StartsWith(attr.name, "url-") then encode(attr.value) else attr.value
  }

  /** One pass of the `for` loop over the attributes (as `String.prototype.replace` does it). */
  function Pass(html: string, attrs: seq<Attribute>, encode: string -> string): string
  {
    if |attrs| == 0 then html
    else
      var last := attrs[|attrs| - 1];
      ReplaceFirst(Pass(html, attrs[..|attrs| - 1], encode), Placeholder(last.name), AttrValue(last, encode))
  }

  /** A text with no `$` has no placeholder and passes through a pass unchanged. */
  lemma {:induction false} PassWithoutDollar(html: string, attrs: seq<Attribute>, encode: string -> string)
    requires '$' !in html
    ensures Pass(html, attrs, encode) == html
    decreases |attrs|
  {
    if |attrs| > 0 {
      var last := attrs[|attrs| - 1];
      PassWithoutDollar(html, attrs[..|attrs| - 1], encode);
      NoDollarNoPlaceholder(html, last.name);
      ReplaceFirstSpec(html, Placeholder(last.name), AttrValue(last, encode));
    }
  }

  lemma NoDollarNoPlaceholder(html: string, name: string)
    requires '$' !in html
    ensures !Contains(html, Placeholder(name))
  {
    var p := Placeholder(name);
    forall i: nat
      ensures !OccursAt(html, p, i)
    {
      if i + |p| <= |html| {
        assert html[i..i + |p|][0] == html[i] != '$' == p[0];
      }
    }
    ContainsIff(html, p);
  }

  /** `k` passes over the macro content. */
  function Iterate(html: string, attrs: seq<Attribute>, encode: string -> string, k: nat): string
  {
    if k == 0 then html else Pass(Iterate(html, attrs, encode, k - 1), attrs, encode)
  }

  /** Pass `k` + 1 changes the text: the loop goes on after it. */
  predicate Changed(html: string, attrs: seq<Attribute>, encode: string -> string, k: nat)
  {
    Pass(Iterate(html, attrs, encode, k), attrs, encode) != Iterate(html, attrs, encode, k)
  }

  /** Each of the first `n` passes changed the text. */
  predicate Unsettled(html: string, attrs: seq<Attribute>, encode: string -> string, n: nat)
  {
    n == 0 || (Unsettled(html, attrs, encode, n - 1) && Changed(html, attrs, encode, n - 1))
  }

  lemma {:induction false} UnsettledIff(html: string, attrs: seq<Attribute>, encode: string -> string, n: nat)
    ensures Unsettled(html, attrs, encode, n) <==> forall j :: 0 <= j < n ==> Changed(html, attrs, encode, j)
  {
    if n > 0 {
      UnsettledIff(html, attrs, encode, n - 1);
    }
  }

  /** The `for` loop over `this.attributes`: one pass. */
  method ApplyAttributes(html: string, attrs: seq<Attribute>, encode: string -> string) returns (r: string)
    ensures r == Pass(html, attrs, encode)
  {
    r := html;
    for i := 0 to |attrs|
      invariant r == Pass(html, attrs[..i], encode)
    {
      var value := attrs[i].value;
      if StartsWith(attrs[i].name, "url-") {
        value := encode(value);
      }
      assert attrs[..i + 1][..i] == attrs[..i];
      r := ReplaceFirst(r, "$" + attrs[i].name + "$", value);
    }
    assert attrs[..|attrs|] == attrs;
  }

  /**
   * The element's state: its `innerHTML` and its `style.display` (None while
   * the style has not been set).
   */
  class MacroInsertElement {
    var content: string
    var display: Option<string>

    constructor()
      ensures content == "" && display == None
    {
      content := "";
      display := None;
    }

    /**
     * `_render`. Without a matching definition the element is left empty.
     * Otherwise the first definition found is expanded pass by pass until a
     * pass changes nothing, and the element shows the result as a block.
     * The source loops for ever when no pass is a fixpoint; here at most `fuel`
     * passes are made, and `completed` is false when they did not suffice (the
     * element then stays empty).
     */
    method Render(dom: Dom, parent: Option<Node>, defs: map<Node, Definition>, attrs: seq<Attribute>,
                  encode: string -> string, fuel: nat) returns (completed: bool)
      requires Acyclic(dom)
      modifies this
      ensures var found := Candidates(dom, parent, defs, DataName(attrs));
        && (|found| == 0 ==> completed && content == "" && display == old(display))
        && (|found| > 0 ==>
          var html := defs[found[0]].html;
          && (completed ==>
            && display == Some("block")
            && Pass(content, attrs, encode) == content
            && (exists k :: 0 <= k <= fuel && content == Iterate(html, attrs, encode, k) &&
                 (k > 0 ==> Unsettled(html, attrs, encode, k - 1))))
          && (!completed ==>
            && content == "" && display == old(display)
            && Unsettled(html, attrs, encode, fuel)))
    {
      content := "";
      var query := Selector(defs, DataName(attrs));
      var elements := UpwardsSearch(dom, parent, query);
      if |elements| == 0 {
        return true;
      }
      var definition := elements[0];
      assert definition in defs by {
        assert definition in Candidates(dom, parent, defs, DataName(attrs));
      }
      var html := defs[definition].html;
      var expanded, rounds;
      completed, expanded, rounds := Expand(html, attrs, encode, fuel);
      if !completed {
        return;
      }
      display := Some("block");
      content := expanded;
    }
  }

  /**
   * The `while` loop of `_render`: passes until one changes nothing, at most
   * `fuel` of them; `completed` says whether a fixpoint was reached and
   * `rounds` how many passes were made.
   */
  method Expand(html: string, attrs: seq<Attribute>, encode: string -> string, fuel: nat)
    returns (completed: bool, result: string, rounds: nat)
    ensures rounds <= fuel
    ensures completed ==> result == Iterate(html, attrs, encode, rounds) && Pass(result, attrs, encode) == result
    ensures completed && rounds > 0 ==> Unsettled(html, attrs, encode, rounds - 1)
    ensures !completed ==> rounds == fuel && result == ""
    ensures !completed ==> Unsettled(html, attrs, encode, fuel)
  {
    var html1 := html;
    var html2 := "";
    rounds := 0;
    while html1 != html2 && rounds < fuel
      invariant rounds <= fuel
      invariant html1 == Iterate(html, attrs, encode, rounds)
      invariant rounds > 0 ==> html2 == Iterate(html, attrs, encode, rounds - 1)
      invariant rounds == 0 ==> html2 == ""
      invariant rounds > 0 ==> Unsettled(html, attrs, encode, rounds - 1)
      decreases fuel - rounds
    {
      html2 := html1;
      html1 := ApplyAttributes(html1, attrs, encode);
      rounds := rounds + 1;
    }
    if html1 != html2 {
      return false, "", rounds;
    }
    Settled(html, attrs, encode, rounds, html1, html2);
    return true, html1, rounds;
  }

  /** When two successive rounds agree, the text is a fixpoint of a pass. */
  lemma Settled(html: string, attrs: seq<Attribute>, encode: string -> string, rounds: nat, html1: string, html2: string)
    requires html1 == Iterate(html, attrs, encode, rounds) && html1 == html2
    requires rounds > 0 ==> html2 == Iterate(html, attrs, encode, rounds - 1)
    requires rounds == 0 ==> html2 == ""
    ensures Pass(html1, attrs, encode) == html1
  {
    if rounds == 0 {
      PassWithoutDollar(html1, attrs, encode);
    }
  }

  /** With a single attribute, a pass is one `replace` of its placeholder. */
  lemma PassSingle(html: string, attr: Attribute, encode: string -> string)
    ensures Pass(html, [attr], encode) == ReplaceFirst(html, Placeholder(attr.name), AttrValue(attr, encode))
  {
    assert [attr][..0] == [];
  }

  /** `replace` at the first occurrence of the pattern. */
  lemma ReplaceFirstAt(s: string, pat: string, rep: string, i: nat)
    requires OccursAt(s, pat, i)
    requires forall j :: 0 <= j < i ==> !OccursAt(s, pat, j)
    ensures ReplaceFirst(s, pat, rep) == s[..i] + Substitution(rep, pat, s[..i], s[i + |pat|..]) + s[i + |pat|..]
  {
    assert IndexOf(s, pat) == Some(i);
    ReplaceFirstFromIndex(s, pat, rep, 0);
  }

  /**
   * A placeholder that occurs twice is replaced in two passes, one occurrence
   * per pass: "$a$ $a$" with a = "b" becomes "b b".
   */
  lemma RepeatedPlaceholder(html: string, attr: Attribute, encode: string -> string)
    requires html == "$a$ $a$" && attr == Attribute("a", "b")
    ensures Iterate(html, [attr], encode, 1) == "b $a$"
    ensures Iterate(html, [attr], encode, 2) == "b b"
    ensures Pass("b b", [attr], encode) == "b b"
  {
    var pat := Placeholder(attr.name);
    assert pat == "$a$";
    assert AttrValue(attr, encode) == "b";
    PassSingle(html, attr, encode);
    FirstOccurrenceReplaced(html, pat);
    var once := "b $a$";
    PassSingle(once, attr, encode);
    SecondOccurrenceReplaced(once, pat);
    PassWithoutDollar("b b", [attr], encode);
  }

  lemma FirstOccurrenceReplaced(html: string, pat: string)
    requires html == "$a$ $a$" && pat == "$a$"
    ensures ReplaceFirst(html, pat, "b") == "b $a$"
  {
    assert html[0..3] == pat;
    ReplaceFirstAt(html, pat, "b", 0);
    assert html[3..] == " $a$";
  }

  lemma SecondOccurrenceReplaced(once: string, pat: string)
    requires once == "b $a$" && pat == "$a$"
    ensures ReplaceFirst(once, pat, "b") == "b b"
  {
    assert once[2..5] == pat;
    assert once[0] != '$' && once[1] != '$';
    ReplaceFirstAt(once, pat, "b", 2);
    assert once[..2] == "b ";
    assert once[5..] == "";
  }

  /** `k` letters `a`. */
  function As(k: nat): (r: string)
    ensures |r| == k && forall i :: 0 <= i < k ==> r[i] == 'a'
  {
    if k == 0 then "" else As(k - 1) + "a"
  }

  /**
   * An attribute whose value holds its own placeholder makes every pass grow
   * the text: with x = "a$x$", "$x$" becomes "a$x$", "aa$x$", ... and the
   * loop of `_render` never ends.
   */
  lemma {:induction false} SelfReferenceNeverSettles(html: string, attr: Attribute, encode: string -> string, k: nat)
    requires html == "$x$" && attr == Attribute("x", "a$x$")
    ensures Iterate(html, [attr], encode, k) == As(k) + "$x$"
    ensures Changed(html, [attr], encode, k)
    decreases k
  {
    if k > 0 {
      SelfReferenceNeverSettles(html, attr, encode, k - 1);
      PassStep(attr, encode, k - 1);
    } else {
      assert As(0) == "";
    }
    PassStep(attr, encode, k);
    assert |As(k + 1) + "$x$"| != |As(k) + "$x$"|;
  }

  /** One pass over "a…a$x$" with x = "a$x$" adds one letter. */
  lemma PassStep(attr: Attribute, encode: string -> string, k: nat)
    requires attr == Attribute("x", "a$x$")
    ensures Pass(As(k) + "$x$", [attr], encode) == As(k + 1) + "$x$"
  {
    var s := As(k) + "$x$";
    assert Placeholder(attr.name) == "$x$";
    assert AttrValue(attr, encode) == "a$x$";
    PassSingle(s, attr, encode);
    PlaceholderAfterLetters(s, k);
    ReplaceFirstAt(s, "$x$", "a$x$", k);
    SubstitutionOfSelf(s[..k], s[k + 3..]);
    GrowsByOneLetter(s, k);
  }

  /** In "a…a$x$" the placeholder first occurs right after the letters. */
  lemma PlaceholderAfterLetters(s: string, k: nat)
    requires s == As(k) + "$x$"
    ensures OccursAt(s, "$x$", k)
    ensures forall j :: 0 <= j < k ==> !OccursAt(s, "$x$", j)
  {
    assert s[k..k + 3] == "$x$";
    forall j | 0 <= j < k ensures !OccursAt(s, "$x$", j) {
      assert s[j] == 'a';
    }
  }

  lemma GrowsByOneLetter(s: string, k: nat)
    requires s == As(k) + "$x$"
    ensures s[..k] + "a$x$" + s[k + 3..] == As(k + 1) + "$x$"
  {
    assert s[..k] == As(k);
    assert s[k + 3..] == "";
  }

  /** "a$x$" as a replacement string stands for itself: `$x` is no `$`-pattern. */
  lemma SubstitutionOfSelf(before: string, after: string)
    ensures Substitution("a$x$", "$x$", before, after) == "a$x$"
  {
    var rep := "a$x$";
    assert rep[1..] == "$x$";
    assert rep[1..][1..] == "x$";
    assert rep[1..][1..][1..] == "$";
    assert rep[1..][1..][1..][1..] == "";
  }
}
