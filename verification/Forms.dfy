/** Forms and parameters collected over a crawl, each recorded once. */
module Forms {
  datatype Form = Form(action: string, verb: string, inputs: seq<(string, string)>)
  datatype Location = Body | Query
  datatype Param = Param(name: string, location: Location)

  function UpperChar(c: char): char { if 'a' <= c <= 'z' then c - 'a' + 'A' else c }

  function Upper(s: string): string { seq(|s|, i requires 0 <= i < |s| => UpperChar(s[i])) }

  /** Forms with the same action and the same method up to case are the same form. */
  function FormKey(form: Form): (string, string) { (form.action, Upper(form.verb)) }

  function LocationOf(form: Form): Location { if Upper(form.verb) == "POST" then Body else Query }

  datatype Collected = Collected(forms: seq<Form>, params: seq<Param>)

  predicate HasForm(forms: seq<Form>, key: (string, string)) {
    exists i :: 0 <= i < |forms| && FormKey(forms[i]) == key
  }

  predicate HasParam(params: seq<Param>, name: string) {
    exists i :: 0 <= i < |params| && params[i].name == name
  }

  function AddParams(params: seq<Param>, inputs: seq<(string, string)>, location: Location): seq<Param> {
    if inputs == [] then params
    else
      var before := AddParams(params, inputs[..|inputs| - 1], location);
      var name := inputs[|inputs| - 1].0;
      if HasParam(before, name) then before else before + [Param(name, location)]
  }

  function Record(c: Collected, form: Form): Collected {
    if HasForm(c.forms, FormKey(form)) then c
    else Collected(c.forms + [form], AddParams(c.params, form.inputs, LocationOf(form)))
  }

  function Collect(forms: seq<Form>): Collected {
    if forms == [] then Collected([], []) else Record(Collect(forms[..|forms| - 1]), forms[|forms| - 1])
  }

  class FormTable {
    var allForms: seq<Form>
    var formSeen: set<(string, string)>
    var allParams: seq<Param>
    var paramSeen: set<string>

    ghost predicate Valid()
      reads this
    {
      && (forall key :: key in formSeen <==> HasForm(allForms, key))
      && (forall name :: name in paramSeen <==> HasParam(allParams, name))
    }

    function Contents(): Collected
      reads this
    {
      Collected(allForms, allParams)
    }

    constructor ()
      ensures Valid() && Contents() == Collected([], [])
    {
      allForms, formSeen, allParams, paramSeen := [], {}, [], {};
    }

    method RecordForm(form: Form)
      requires Valid()
      modifies this
      ensures Valid() && Contents() == Record(old(Contents()), form)
    {
      var key := FormKey(form);
      if key in formSeen {
        return;
      }
      formSeen := formSeen + {key};
      RecordParams(form);
      FormAppended(allForms, form);
      allForms := allForms + [form];
    }

    method RecordParams(form: Form)
      requires forall name :: name in paramSeen <==> HasParam(allParams, name)
      modifies this`allParams, this`paramSeen
      ensures forall name :: name in paramSeen <==> HasParam(allParams, name)
      ensures allParams == AddParams(old(allParams), form.inputs, LocationOf(form))
    {
      for i := 0 to |form.inputs|
        invariant forall name :: name in paramSeen <==> HasParam(allParams, name)
        invariant allParams == AddParams(old(allParams), form.inputs[..i], LocationOf(form))
      {
        assert form.inputs[..i + 1][..i] == form.inputs[..i];
        var name := form.inputs[i].0;
        if name !in paramSeen {
          var param := Param(name, LocationOf(form));
          paramSeen := paramSeen + {name};
          ParamAppended(allParams, param);
          allParams := allParams + [param];
        }
      }
      assert form.inputs[..|form.inputs|] == form.inputs;
    }
  }

  lemma FormAppended(forms: seq<Form>, form: Form)
    ensures forall key :: HasForm(forms + [form], key) <==> HasForm(forms, key) || key == FormKey(form)
  {
    hide FormKey;
    forall key
      ensures HasForm(forms + [form], key) <==> HasForm(forms, key) || key == FormKey(form)
    {
      if HasForm(forms, key) {
        var i :| 0 <= i < |forms| && FormKey(forms[i]) == key;
        assert (forms + [form])[i] == forms[i];
      }
      assert (forms + [form])[|forms|] == form;
    }
  }

  lemma ParamAppended(params: seq<Param>, param: Param)
    ensures forall name :: HasParam(params + [param], name) <==> HasParam(params, name) || name == param.name
  {
    forall name
      ensures HasParam(params + [param], name) <==> HasParam(params, name) || name == param.name
    {
      if HasParam(params, name) {
        var i :| 0 <= i < |params| && params[i].name == name;
        assert (params + [param])[i] == params[i];
      }
      assert (params + [param])[|params|] == param;
    }
  }

  // ---- When forms are the same ----

  /** The same letter, in either case. */
  predicate SameLetter(a: char, b: char) {
    a == b || ('A' <= a <= 'Z' && b as int == a as int + 32) || ('A' <= b <= 'Z' && a as int == b as int + 32)
  }

  /** The same word, in any case. */
  predicate SameWord(a: string, b: string) {
    |a| == |b| && forall i :: 0 <= i < |a| ==> SameLetter(a[i], b[i])
  }

  lemma UpperSame(a: string, b: string)
    ensures Upper(a) == Upper(b) <==> SameWord(a, b)
  {
    if Upper(a) == Upper(b) {
      assert |Upper(a)| == |a| && |Upper(b)| == |b|;
      forall i | 0 <= i < |a|
        ensures SameLetter(a[i], b[i])
      {
        assert Upper(a)[i] == Upper(b)[i];
      }
    }
  }

  /** Two forms have the same key exactly if they have the same action, and the same method in any case. */
  lemma SameFormIff(a: Form, b: Form)
    ensures FormKey(a) == FormKey(b) <==> a.action == b.action && SameWord(a.verb, b.verb)
  {
    UpperSame(a.verb, b.verb);
  }

  /** The inputs of a form go into the body exactly if its method is POST in any case. */
  lemma BodyIff(form: Form)
    ensures LocationOf(form) == Body <==> SameWord(form.verb, "POST")
  {
    assert Upper("POST") == "POST";
    UpperSame(form.verb, "POST");
  }

  // ---- What has been collected ----

  ghost predicate Names(inputs: seq<(string, string)>, name: string) {
    exists j :: 0 <= j < |inputs| && inputs[j].0 == name
  }

  ghost predicate SomeFormNames(forms: seq<Form>, name: string, location: Location) {
    exists i :: 0 <= i < |forms| && LocationOf(forms[i]) == location && Names(forms[i].inputs, name)
  }

  lemma {:induction false} AddParamsExact(params: seq<Param>, inputs: seq<(string, string)>, location: Location)
    requires forall i, j :: 0 <= i < j < |params| ==> params[i].name != params[j].name
    ensures var r := AddParams(params, inputs, location);
            && params <= r
            && (forall i, j :: 0 <= i < j < |r| ==> r[i].name != r[j].name)
            && (forall i :: |params| <= i < |r| ==> r[i].location == location)
            && (forall name :: HasParam(r, name) <==>
                  HasParam(params, name) || Names(inputs, name))
  {
    if inputs != [] {
      var init, name := inputs[..|inputs| - 1], inputs[|inputs| - 1].0;
      AddParamsExact(params, init, location);
      var before := AddParams(params, init, location);
      ParamAppended(before, Param(name, location));
      NamesAppended(init, inputs[|inputs| - 1]);
      assert inputs == init + [inputs[|inputs| - 1]];
    }
  }

  lemma NamesAppended(inputs: seq<(string, string)>, input: (string, string))
    ensures forall name :: Names(inputs + [input], name) <==> Names(inputs, name) || name == input.0
  {
    forall name
      ensures Names(inputs + [input], name) <==> Names(inputs, name) || name == input.0
    {
      if Names(inputs, name) {
        var j :| 0 <= j < |inputs| && inputs[j].0 == name;
        assert (inputs + [input])[j] == inputs[j];
      }
      assert (inputs + [input])[|inputs|] == input;
    }
  }

  /** The forms recorded have different keys and were all given; every given form's key is there. */
  ghost predicate FormsMatch(c: Collected, forms: seq<Form>) {
    && (forall i, j :: 0 <= i < j < |c.forms| ==> FormKey(c.forms[i]) != FormKey(c.forms[j]))
    && (forall form :: form in c.forms ==> form in forms)
    && (forall form :: form in forms ==> HasForm(c.forms, FormKey(form)))
  }

  lemma {:induction false} FormsExact(forms: seq<Form>)
    ensures FormsMatch(Collect(forms), forms)
  {
    if forms != [] {
      var init, form := forms[..|forms| - 1], forms[|forms| - 1];
      FormsExact(init);
      RecordKeepsForms(Collect(init), init, form);
      assert forms == init + [form];
    }
  }

  lemma RecordKeepsForms(before: Collected, forms: seq<Form>, form: Form)
    requires FormsMatch(before, forms)
    ensures FormsMatch(Record(before, form), forms + [form])
  {
    hide FormKey, AddParams;
    FormAppended(before.forms, form);
  }

  /** The parameters recorded have different names, and are exactly the inputs of the recorded
      forms, each with the location of a recorded form that has it. */
  ghost predicate ParamsMatch(c: Collected) {
    && (forall i, j :: 0 <= i < j < |c.params| ==> c.params[i].name != c.params[j].name)
    && (forall i :: 0 <= i < |c.params| ==> SomeFormNames(c.forms, c.params[i].name, c.params[i].location))
    && (forall i, name :: 0 <= i < |c.forms| && Names(c.forms[i].inputs, name) ==> HasParam(c.params, name))
  }

  lemma {:induction false} ParamsExact(forms: seq<Form>)
    ensures ParamsMatch(Collect(forms))
  {
    if forms != [] {
      ParamsExact(forms[..|forms| - 1]);
      RecordKeepsMatch(Collect(forms[..|forms| - 1]), forms[|forms| - 1]);
    }
  }

  lemma RecordKeepsMatch(before: Collected, form: Form)
    requires ParamsMatch(before)
    ensures ParamsMatch(Record(before, form))
  {
    hide FormKey, LocationOf;
    var c := Record(before, form);
    if c != before {
      AddParamsExact(before.params, form.inputs, LocationOf(form));
      assert c.forms[|before.forms|] == form;
      forall i | 0 <= i < |c.params|
        ensures SomeFormNames(c.forms, c.params[i].name, c.params[i].location)
      {
        if i < |before.params| {
          assert c.params[i] == before.params[i];
          var k :| 0 <= k < |before.forms| && LocationOf(before.forms[k]) == c.params[i].location
                   && Names(before.forms[k].inputs, c.params[i].name);
          assert c.forms[k] == before.forms[k];
        } else {
          NewParamNamed(before.params, form, c.params, i);
        }
      }
      forall i, name | 0 <= i < |c.forms| && Names(c.forms[i].inputs, name)
        ensures HasParam(c.params, name)
      {
        if i < |before.forms| {
          assert c.forms[i] == before.forms[i];
        }
      }
    }
  }

  lemma NewParamNamed(before: seq<Param>, form: Form, params: seq<Param>, i: nat)
    requires before <= params && |before| <= i < |params|
    requires forall j, k :: 0 <= j < k < |params| ==> params[j].name != params[k].name
    requires forall name :: HasParam(params, name) <==> HasParam(before, name) || Names(form.inputs, name)
    ensures Names(form.inputs, params[i].name)
  {
    assert HasParam(params, params[i].name);
    forall j | 0 <= j < |before|
      ensures before[j].name != params[i].name
    {
      assert params[j] == before[j];
    }
  }
}
