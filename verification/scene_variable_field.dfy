/** The decisions of the scene variable parameter field: which variable
    containers and entries it offers, its element id, when the scene
    variables dialog is shown, and what applying the dialog does to the
    field's value. Rendering, refs and autocompletion refresh are left out. */
module SceneVariableField {
  import opened Wrappers

  // Opaque handles to engine objects.
  datatype VariablesContainer = VariablesContainer(id: nat)
  datatype Layout = Layout(variables: VariablesContainer)
  datatype Project = Project(id: nat)

  /** An entry produced by the variables enumeration (whose body is not part
      of this model): only its name is kept. */
  datatype VariableDescription = VariableDescription(name: string)

  datatype VariableIcon = SceneIcon

  /** An enumerated entry with the scene icon attached. */
  datatype EnumeratedVariable = EnumeratedVariable(name: string, renderIcon: VariableIcon)

  /** The field's own state: the current value and whether the dialog was
      asked for. */
  datatype FieldState = FieldState(value: string, editorOpen: bool)

  /** What applying the dialog does: the value forwarded to `onChange`, if
      any, and whether the editor stays open. */
  datatype ApplyOutcome = ApplyOutcome(change: Option<string>, editorOpen: bool)

  // ---------------------------------------------------------------------
  // Containers and enumeration

  /** The containers searched for variables: the layout's, or none. */
  function VariablesContainers(layout: Option<Layout>): (r: seq<VariablesContainer>)
    ensures layout.None? <==> r == []
    ensures layout.Some? ==> r == [layout.value.variables]
  {
    if layout.Some? then [layout.value.variables] else []
  }

  /** The enumerated scene variables: none without a layout; otherwise the
      entries of `enumerate` for the layout's variables, same count and
      order, each with the scene icon. */
  function EnumerateSceneVariables(layout: Option<Layout>, enumerate: VariablesContainer -> seq<VariableDescription>)
    : (r: seq<EnumeratedVariable>)
    ensures layout.None? ==> r == []
    ensures layout.Some? ==>
              && |r| == |enumerate(layout.value.variables)|
              && forall i :: 0 <= i < |r| ==>
                   r[i].name == enumerate(layout.value.variables)[i].name && r[i].renderIcon == SceneIcon
  {
    if layout.None? then []
    else
      var es := enumerate(layout.value.variables);
      seq(|es|, i requires 0 <= i < |es| => EnumeratedVariable(es[i].name, SceneIcon))
  }

  /** The entries `enumerate` yields for each container of `cs`, in order. */
  function EnumerateAll(cs: seq<VariablesContainer>, enumerate: VariablesContainer -> seq<VariableDescription>)
    : seq<VariableDescription>
  {
    if |cs| == 0 then [] else enumerate(cs[0]) + EnumerateAll(cs[1..], enumerate)
  }

  function DescriptionNames(ds: seq<VariableDescription>): seq<string> {
    seq(|ds|, i requires 0 <= i < |ds| => ds[i].name)
  }

  function EntryNames(es: seq<EnumeratedVariable>): seq<string> {
    seq(|es|, i requires 0 <= i < |es| => es[i].name)
  }

  /** The field lists, in order, exactly the variables of the containers it
      searches, all with the scene icon; offering no container means listing
      nothing, and the field searches at most one container. */
  lemma EnumerationMatchesContainers(layout: Option<Layout>, enumerate: VariablesContainer -> seq<VariableDescription>)
    ensures EntryNames(EnumerateSceneVariables(layout, enumerate)) ==
            DescriptionNames(EnumerateAll(VariablesContainers(layout), enumerate))
    ensures forall e :: e in EnumerateSceneVariables(layout, enumerate) ==> e.renderIcon == SceneIcon
    ensures VariablesContainers(layout) == [] ==> EnumerateSceneVariables(layout, enumerate) == []
    ensures |VariablesContainers(layout)| <= 1
  {
  }

  // ---------------------------------------------------------------------
  // Element id

  const IdPrefix: string := "parameter-"
  const IdSuffix: string := "-scene-variable-field"

  predicate IsDigit(c: char) {
    '0' <= c <= '9'
  }

  predicate AllDigits(s: string) {
    forall i :: 0 <= i < |s| ==> IsDigit(s[i])
  }

  /** The decimal text of a number, as a template literal prints a natural
      number below 1e21 (larger ones print in exponent form). */
  function NatToString(n: nat): (s: string)
    ensures |s| > 0 && AllDigits(s)
    ensures s[0] == '0' <==> n == 0
    ensures s[0] == '0' ==> s == "0"
  {
    if n < 10 then [('0' as int + n) as char]
    else NatToString(n / 10) + [('0' as int + n % 10) as char]
  }

  /** The number a string of decimal digits denotes. */
  function DigitsValue(s: string): nat
    requires AllDigits(s)
  {
    if |s| == 0 then 0
    else DigitsValue(s[..|s| - 1]) * 10 + (s[|s| - 1] as int - '0' as int)
  }

  lemma {:induction false} DigitsValueOfNatToString(n: nat)
    ensures DigitsValue(NatToString(n)) == n
  {
    if n >= 10 {
      var s := NatToString(n / 10);
      var t := NatToString(n);
      assert t[..|t| - 1] == s;
      DigitsValueOfNatToString(n / 10);
    }
  }

  /** The id of the field: present exactly when the parameter index is. */
  function FieldId(parameterIndex: Option<nat>): (r: Option<string>)
    ensures r.Some? <==> parameterIndex.Some?
    ensures r.Some? ==>
              && |r.value| > |IdPrefix| + |IdSuffix|
              && r.value[..|IdPrefix|] == IdPrefix
              && r.value[|r.value| - |IdSuffix|..] == IdSuffix
              && AllDigits(r.value[|IdPrefix|..|r.value| - |IdSuffix|])
    ensures r.Some? ==>
              var d := r.value[|IdPrefix|..|r.value| - |IdSuffix|];
              d[0] == '0' ==> d == "0"
  {
    match parameterIndex
    case None => None
    case Some(i) =>
      var digits := NatToString(i);
      var id := IdPrefix + digits + IdSuffix;
      assert id[|IdPrefix|..|id| - |IdSuffix|] == digits;
      Some(id)
  }

  /** Reads the parameter index back out of a field id. */
  function ParseFieldId(id: string): Option<nat> {
    if |id| > |IdPrefix| + |IdSuffix|
       && id[..|IdPrefix|] == IdPrefix
       && id[|id| - |IdSuffix|..] == IdSuffix
       && AllDigits(id[|IdPrefix|..|id| - |IdSuffix|])
    then Some(DigitsValue(id[|IdPrefix|..|id| - |IdSuffix|]))
    else None
  }

  /** The id determines the parameter index it was built from. */
  lemma FieldIdRoundTrip(i: nat)
    ensures ParseFieldId(FieldId(Some(i)).value) == Some(i)
  {
    var digits := NatToString(i);
    var id := IdPrefix + digits + IdSuffix;
    assert id[|IdPrefix|..|id| - |IdSuffix|] == digits;
    DigitsValueOfNatToString(i);
  }

  /** Distinct parameters get distinct ids. */
  lemma FieldIdInjective(i: nat, j: nat)
    requires FieldId(Some(i)) == FieldId(Some(j))
    ensures i == j
  {
    FieldIdRoundTrip(i);
    FieldIdRoundTrip(j);
  }

  // ---------------------------------------------------------------------
  // Dialog

  /** `String.prototype.startsWith`, character by character. */
  function StartsWith(s: string, prefix: string): (r: bool)
    ensures r <==> |prefix| <= |s| && s[..|prefix|] == prefix
  {
    if |prefix| == 0 then true
    else if |s| == 0 then false
    else
      var r := s[0] == prefix[0] && StartsWith(s[1..], prefix[1..]);
      assert r ==> s[..|prefix|] == prefix by {
        if r {
          assert s[..|prefix|] == [s[0]] + s[1..][..|prefix| - 1];
          assert prefix == [prefix[0]] + prefix[1..];
        }
      }
      assert (|prefix| <= |s| && s[..|prefix|] == prefix) ==> r by {
        if |prefix| <= |s| && s[..|prefix|] == prefix {
          assert s[0] == s[..|prefix|][0];
          assert s[1..][..|prefix| - 1] == s[..|prefix|][1..];
        }
      }
      r
  }

  /** The scene variables dialog is rendered only when it was asked for and
      both a layout and a project are present. */
  function DialogShown(st: FieldState, layout: Option<Layout>, project: Option<Project>): (r: bool)
    ensures r <==> st.editorOpen && layout.Some? && project.Some?
  {
    st.editorOpen && layout.Some? && project.Some?
  }

  /** Asking for the editor (`onOpenDialog`). */
  function OpenDialog(st: FieldState): (r: FieldState)
    ensures r.editorOpen && r.value == st.value
  {
    st.(editorOpen := true)
  }

  /** The dialog's cancel handler: the editor closes, the value stays. */
  function CancelDialog(st: FieldState): (r: FieldState)
    ensures !r.editorOpen && r.value == st.value
  {
    st.(editorOpen := false)
  }

  /** The dialog's apply handler: the selected name goes to `onChange` only
      when it is non-empty and extends the current value; the editor always
      closes. */
  function OnApply(value: string, selection: Option<string>): (r: ApplyOutcome)
    ensures !r.editorOpen
    ensures r.change.Some? <==>
              selection.Some? && |selection.value| > 0 && |value| <= |selection.value| &&
              selection.value[..|value|] == value
    ensures r.change.Some? ==> r.change == selection
  {
    var forward := selection.Some? && |selection.value| > 0 && StartsWith(selection.value, value);
    ApplyOutcome(if forward then selection else None, false)
  }

  /** The field after applying, with the parent adopting any forwarded
      value. */
  function ApplyToField(st: FieldState, selection: Option<string>): (r: FieldState)
    ensures !r.editorOpen
    ensures r.value == st.value || (selection == Some(r.value) && |r.value| > 0)
    ensures selection.Some? && |selection.value| > 0 && st.value <= selection.value ==>
              r.value == selection.value
    ensures !(selection.Some? && |selection.value| > 0 && st.value <= selection.value) ==>
              r.value == st.value
  {
    var out := OnApply(st.value, selection);
    FieldState(out.change.GetOr(st.value), out.editorOpen)
  }

  /** Applying never replaces the value by an unrelated one: the new value
      always extends the old, and the dialog is gone afterwards. */
  lemma ApplyExtendsValue(st: FieldState, selection: Option<string>, layout: Option<Layout>, project: Option<Project>)
    ensures st.value <= ApplyToField(st, selection).value
    ensures !DialogShown(ApplyToField(st, selection), layout, project)
  {
  }

  /** With an empty current value every non-empty selection is forwarded. */
  lemma EmptyValueForwardsAny(sel: string)
    requires |sel| > 0
    ensures OnApply("", Some(sel)).change == Some(sel)
  {
  }

  /** An empty or missing selection, or one that does not extend the value,
      leaves the value untouched. */
  lemma NonExtendingSelectionIgnored(st: FieldState, selection: Option<string>)
    requires selection.None? || |selection.value| == 0 || !(st.value <= selection.value)
    ensures ApplyToField(st, selection) == FieldState(st.value, false)
  {
  }

  /** "PlayerScore" extends "Player" and is forwarded; "Enemy" is not. */
  lemma PlayerExamples()
    ensures OnApply("Player", Some("PlayerScore")).change == Some("PlayerScore")
    ensures OnApply("Player", Some("Enemy")).change == None
  {
  }

  /** The dialog shows after the editor is asked for exactly when a layout
      and a project are present, never after cancelling, and opening or
      cancelling leaves the value alone. */
  lemma DialogVisibility(st: FieldState, layout: Option<Layout>, project: Option<Project>)
    ensures DialogShown(OpenDialog(st), layout, project) <==> layout.Some? && project.Some?
    ensures !DialogShown(CancelDialog(st), layout, project)
    ensures !DialogShown(st, None, project)
    ensures OpenDialog(st).value == st.value && CancelDialog(st).value == st.value
  {
  }
}
