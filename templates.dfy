/** What the formatting pass reads from the snippet definition: its
    SnippetType tags, and the template text rebuilt from the code body with
    the session's current field values. */
module Templates {
  import opened Strings

  const SurroundsWith: string := "SurroundsWith"
  const SurroundsWithStatement: string := "SurroundsWithStatement"
  const Expansion: string := "Expansion"

  /** A child of the snippet's `SnippetTypes` header node. */
  datatype XmlNode = XmlNode(nodeName: string, text: string)

  /** The parts of a snippet definition the formatting pass uses: the text of
      the `Code` node, the children of `SnippetTypes`, and the `ID` of each
      declaration that has one, in document order. */
  datatype Snippet = Snippet(code: string, snippetTypes: seq<XmlNode>, declarations: seq<string>)

  /** Some `SnippetType` child carries the given text. */
  predicate HasType(nodes: seq<XmlNode>, ty: string) {
    exists i :: 0 <= i < |nodes| && nodes[i].nodeName == "SnippetType" && nodes[i].text == ty
  }

  /** The loop over the `SnippetTypes` children that sets the two surround flags. */
  method ClassifySnippetTypes(nodes: seq<XmlNode>) returns (surroundsWith: bool, surroundsWithStatement: bool)
    ensures surroundsWith == HasType(nodes, SurroundsWith)
    ensures surroundsWithStatement == HasType(nodes, SurroundsWithStatement)
  {
    surroundsWith, surroundsWithStatement := false, false;
    for i := 0 to |nodes|
      invariant surroundsWith == HasType(nodes[..i], SurroundsWith)
      invariant surroundsWithStatement == HasType(nodes[..i], SurroundsWithStatement)
    {
      assert forall j :: 0 <= j < i ==> nodes[..i + 1][j] == nodes[..i][j];
      if nodes[i].nodeName == "SnippetType" {
        if nodes[i].text == SurroundsWith {
          surroundsWith := true;
        } else if nodes[i].text == SurroundsWithStatement {
          surroundsWithStatement := true;
        }
      }
      assert nodes[..i + 1][i] == nodes[i];
    }
    assert nodes[..|nodes|] == nodes;
  }

  /** One declaration's substitution: every `$id$` becomes the field's current
      value; when the session has no value for the field, the text is kept. */
  function SubstituteField(t: string, id: string, values: map<string, string>): string {
    if id in values then Replace(t, "$" + id + "$", values[id]) else t
  }

  /** The substitutions of all declarations, one after the other, in declaration order. */
  function SubstituteFields(t: string, ids: seq<string>, values: map<string, string>): string
    decreases |ids|
  {
    if ids == [] then t else SubstituteFields(SubstituteField(t, ids[0], values), ids[1..], values)
  }

  /** The template text as the formatting pass rebuilds it: line breaks
      converted to the buffer's newline, field values substituted, `$end$`
      removed; `$selected$` is left in place. */
  function Reconstructed(code: string, newLine: string, ids: seq<string>, values: map<string, string>): string {
    Replace(SubstituteFields(Replace(code, "\n", newLine), ids, values), "$end$", "")
  }

  /** The rebuilding loop of `FormatSpan`. */
  method ReconstructTemplate(code: string, newLine: string, declList: seq<string>, values: map<string, string>)
    returns (templateText: string)
    ensures templateText == Reconstructed(code, newLine, declList, values)
  {
    templateText := Replace(code, "\n", newLine);
    ghost var start := templateText;
    for i := 0 to |declList|
      invariant SubstituteFields(templateText, declList[i..], values) == SubstituteFields(start, declList, values)
    {
      assert declList[i..][1..] == declList[i + 1..];
      var decl := declList[i];
      if decl in values {
        templateText := Replace(templateText, "$" + decl + "$", values[decl]);
      }
    }
    templateText := Replace(templateText, "$end$", "");
  }

  /** The declarations whose field has a value in the session. */
  function Bound(ids: seq<string>, values: map<string, string>): (r: seq<string>)
    ensures forall x :: x in r ==> x in ids && x in values
    decreases |ids|
  {
    if ids == [] then []
    else (if ids[0] in values then [ids[0]] else []) + Bound(ids[1..], values)
  }

  /** Substituting a list of declarations is substituting the first part,
      then the rest: the order is the declaration order. */
  lemma {:induction false} SubstituteFieldsAppend(t: string, a: seq<string>, b: seq<string>, values: map<string, string>)
    ensures SubstituteFields(t, a + b, values) == SubstituteFields(SubstituteFields(t, a, values), b, values)
    decreases |a|
  {
    if a == [] {
      assert a + b == b;
    } else {
      assert (a + b)[0] == a[0] && (a + b)[1..] == a[1..] + b;
      SubstituteFieldsAppend(SubstituteField(t, a[0], values), a[1..], b, values);
    }
  }

  /** Declarations whose value lookup fails contribute nothing: their
      `$id$` placeholders stay literal. */
  lemma {:induction false} UnboundFieldsStayLiteral(t: string, ids: seq<string>, values: map<string, string>)
    ensures SubstituteFields(t, ids, values) == SubstituteFields(t, Bound(ids, values), values)
    decreases |ids|
  {
    if ids != [] {
      UnboundFieldsStayLiteral(SubstituteField(t, ids[0], values), ids[1..], values);
      if ids[0] in values {
        var B := Bound(ids, values);
        assert B == [ids[0]] + Bound(ids[1..], values);
        assert B[0] == ids[0] && B[1..] == Bound(ids[1..], values);
      } else {
        assert SubstituteField(t, ids[0], values) == t;
        assert Bound(ids, values) == [] + Bound(ids[1..], values);
        assert Bound(ids, values) == Bound(ids[1..], values);
        assert SubstituteFields(t, ids, values) == SubstituteFields(t, ids[1..], values);
      }
    }
  }

  /** With a buffer newline of `"\n"` the newline conversion changes nothing. */
  lemma NewlineConversionIdentity(code: string, ids: seq<string>, values: map<string, string>)
    ensures Reconstructed(code, "\n", ids, values) == Replace(SubstituteFields(code, ids, values), "$end$", "")
  {
    ReplaceSelf(code, "\n");
  }
}
