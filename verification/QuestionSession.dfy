/** The running question session: the in-place search that the `QuestionsModel` facts describe. */
module QuestionSession {
  import opened Prelude
  import opened QuestionsModel

  datatype AskError = Cycle(variable: string) | PromptFailed(variable: string)

  class Question {
    const def: Def
    var asked: bool
    var inprogress: bool

    constructor (def: Def)
      ensures this.def == def && !asked && !inprogress
    {
      this.def, asked, inprogress := def, false, false;
    }
  }

  class Questions {
    const form: Form
    const order: seq<Question>
    const questions: map<string, nat>
    var result: map<string, string>
    ghost var written: seq<nat>    // the questions answered so far, in order
    ghost var prompted: seq<nat>   // those whose answer was prompted for

    ghost predicate Valid() {
      && |order| == |form.defs|
      && (forall i :: 0 <= i < |order| ==> order[i].def == form.defs[i])
      && Distinct(order)
      && Registers(form.defs, questions)
    }

    // The questions in progress are those on the search path, none of them answered.
    ghost predicate At(path: seq<nat>)
      reads this, order
    {
      && InProgress(path)
      && (forall i :: 0 <= i < |order| ==> (order[i].asked <==> i in written))
      && (forall i :: i in path ==> i !in written)
      && Progress(form, written, prompted, result)
    }

    ghost predicate InProgress(path: seq<nat>)
      reads order
    {
      forall i :: 0 <= i < |order| ==> (order[i].inprogress <==> i in path)
    }

    // The questions not on the path, which a nested call can still start.
    ghost function Open(path: seq<nat>): set<nat> {
      set i: nat | i < |order| && i !in path
    }

    // NewQuestions for top-level questions: conditions are parsed, earlier answers recalled.
    constructor (qs: seq<Spec>, answers: map<string, string>, force: bool, prompt: string -> Option<string>)
      ensures Valid() && At([]) && fresh(order)
      ensures form == Form(Defs(qs, answers), force, prompt)
      ensures result == map[] && written == [] && prompted == []
    {
      var defs, order', questions' := Build(qs, answers);
      form, order, questions := Form(defs, force, prompt), order', questions';
      result, written, prompted := map[], [], [];
    }

    // question.ask: detect a cycle, mark, resolve unless already asked, unmark.
    method Ask(i: nat, ghost path: seq<nat>) returns (err: Option<AskError>, ghost walk: seq<nat>)
      requires Valid() && i < |order| && At(path) && Walk(form, path + [i])
      modifies this, order
      ensures InProgress(path)
      ensures err == None ==> At(path) && i in written && old(written) <= written
      ensures err.Some? && err.value.Cycle? ==> ClosedWalk(form, walk)
      ensures err.Some? && err.value.PromptFailed? ==> form.prompt(err.value.variable).None?
      decreases Open(path), 1
    {
      var q := order[i];
      if q.inprogress {
        walk := path[Position(path, i)..] + [i];
        SubWalk(form, path + [i], Position(path, i));
        assert (path + [i])[Position(path, i)..] == walk;
        return Some(Cycle(q.def.variable)), walk;
      }
      err, walk := None, [];
      q.inprogress := true;
      if !q.asked {
        assert i !in path;
        assert Open(path + [i]) < Open(path) by {
          assert i in Open(path) && i !in Open(path + [i]);
          assert Open(path + [i]) <= Open(path);
        }
        assert At(path + [i]);
        err, walk := Resolve(i, path + [i]);
      }
      q.asked := true;
      q.inprogress := false;
    }

    // The body of ask for a question not asked before.
    method Resolve(i: nat, ghost path: seq<nat>) returns (err: Option<AskError>, ghost walk: seq<nat>)
      requires Valid() && i < |order| && At(path) && Walk(form, path) && path != [] && path[|path| - 1] == i
      modifies this, order
      ensures InProgress(path)
      ensures err == None ==>
        && Progress(form, written, prompted, result)
        && (forall k :: 0 <= k < |order| && k != i ==> (order[k].asked <==> k in written))
        && (forall k :: k in path && k != i ==> k !in written)
        && i in written && old(written) <= written
      ensures err.Some? && err.value.Cycle? ==> ClosedWalk(form, walk)
      ensures err.Some? && err.value.PromptFailed? ==> form.prompt(err.value.variable).None?
      decreases Open(path), 4
    {
      err, walk := None, [];
      var d := order[i].def;
      if d.oldAnswer != "" && !form.force {
        Extend(form, written, prompted, result, i);
        result := result[d.variable := d.oldAnswer];
        written := written + [i];
        return;
      }
      var ok;
      ok, err, walk := Eval(i, path);
      if err.Some? {
        return;
      }
      Extend(form, written, prompted, result, i);
      if ok {
        var answer := form.prompt(d.variable);
        if answer.None? {
          result := result[d.variable := ""];
          return Some(PromptFailed(d.variable)), [];
        }
        result := result[d.variable := answer.value];
        prompted := prompted + [i];
      } else if d.oldAnswer != "" {
        result := result[d.variable := d.oldAnswer];
      } else {
        result := result[d.variable := d.default];
      }
      written := written + [i];
    }

    // condition.eval: ask every question the condition refers to, then compare the answers.
    method Eval(i: nat, ghost path: seq<nat>) returns (ok: bool, err: Option<AskError>, ghost walk: seq<nat>)
      requires Valid() && i < |order| && At(path) && Walk(form, path) && path != [] && path[|path| - 1] == i
      requires Live(form, i)
      modifies this, order
      ensures InProgress(path)
      ensures err == None ==>
        && At(path) && old(written) <= written
        && (forall j: nat :: Edge(form, i, j) ==> j in written)
        && ok == ChecksHold(form, i, result)
      ensures err.Some? && err.value.Cycle? ==> ClosedWalk(form, walk)
      ensures err.Some? && err.value.PromptFailed? ==> form.prompt(err.value.variable).None?
      decreases Open(path), 3
    {
      err, walk, ok := None, [], false;
      for k := 0 to |order[i].def.checks|
        invariant err == None && At(path) && old(written) <= written
        invariant Referenced(form, i, k, written)
      {
        err, walk := AskCheck(i, k, path);
        if err.Some? {
          return;
        }
      }
      AllReferenced(form, i, written);
      ok := Compare(i);
    }

    // Ask the question that the k-th check refers to, if there is one.
    method AskCheck(i: nat, k: nat, ghost path: seq<nat>) returns (err: Option<AskError>, ghost walk: seq<nat>)
      requires Valid() && i < |order| && At(path) && Walk(form, path) && path != [] && path[|path| - 1] == i
      requires Live(form, i) && k < |form.defs[i].checks| && Referenced(form, i, k, written)
      modifies this, order
      ensures InProgress(path)
      ensures err == None ==> At(path) && old(written) <= written && Referenced(form, i, k + 1, written)
      ensures err.Some? && err.value.Cycle? ==> ClosedWalk(form, walk)
      ensures err.Some? && err.value.PromptFailed? ==> form.prompt(err.value.variable).None?
      decreases Open(path), 2
    {
      err, walk := None, [];
      var v := order[i].def.checks[k].0;
      if v in questions {
        ExtendWalk(form, path, k);
        err, walk := Ask(questions[v], path);
      }
    }

    method Compare(i: nat) returns (ok: bool)
      requires Valid() && i < |order|
      ensures ok == ChecksHold(form, i, result)
    {
      var checks := order[i].def.checks;
      for k := 0 to |checks|
        invariant forall c :: 0 <= c < k ==> Answer(result, checks[c].0) == checks[c].1
      {
        if Answer(result, checks[k].0) != checks[k].1 {
          return false;
        }
      }
      return true;
    }

    // Questions.Ask
    method AskAll() returns (r: Result<map<string, string>, AskError>)
      requires Valid() && At([])
      modifies this, order
      ensures r.Ok? ==>
        && r.value == result
        && !Cyclic(form)
        && (forall i :: 0 <= i < |form.defs| ==> i in written) && Distinct(written) && Distinct(prompted)
        && (DistinctVariables(form) ==>
              && Consistent(form, r.value)
              && (forall m :: Consistent(form, m) ==> m == r.value)
              && (forall i :: 0 <= i < |form.defs| ==> (i in prompted <==> Prompts(form, i, r.value))))
      ensures r.Err? && r.error.Cycle? ==> Cyclic(form)
      ensures r.Err? && r.error.PromptFailed? ==> form.prompt(r.error.variable).None?
    {
      for i := 0 to |order|
        invariant At([])
        invariant forall k :: 0 <= k < i ==> k in written
      {
        var err;
        ghost var walk;
        err, walk := Ask(i, []);
        if err.Some? {
          return Err(err.value);
        }
      }
      Finished(form, written, prompted, result);
      r := Ok(result);
    }

    // When no prompt fails, a cycle is reported exactly when the conditions that must be
    // evaluated form one.
    method AskWithoutFailures() returns (r: Result<map<string, string>, AskError>)
      requires Valid() && At([])
      requires forall v :: form.prompt(v).Some?
      modifies this, order
      ensures r.Err? <==> Cyclic(form)
      ensures r.Err? ==> r.error.Cycle?
    {
      r := AskAll();
    }
  }

  function DefOf(q: Spec, answers: map<string, string>): Def {
    Def(q.variable, q.default, Answer(answers, q.variable), NewCondition(q.showIf))
  }

  function Defs(qs: seq<Spec>, answers: map<string, string>): (ds: seq<Def>)
    ensures |ds| == |qs|
  {
    if qs == [] then [] else Defs(qs[..|qs| - 1], answers) + [DefOf(qs[|qs| - 1], answers)]
  }

  lemma DefsStep(qs: seq<Spec>, answers: map<string, string>, i: nat)
    requires i < |qs|
    ensures Defs(qs[..i + 1], answers) == Defs(qs[..i], answers) + [DefOf(qs[i], answers)]
  {
    assert qs[..i + 1][..i] == qs[..i];
  }

  // What a session that has answered every question has achieved.
  lemma Finished(f: Form, written: seq<nat>, prompted: seq<nat>, m: map<string, string>)
    requires Progress(f, written, prompted, m) && forall i :: 0 <= i < |f.defs| ==> i in written
    ensures !Cyclic(f) && Distinct(written) && Distinct(prompted)
    ensures DistinctVariables(f) ==>
      && Consistent(f, m)
      && (forall m' :: Consistent(f, m') ==> m' == m)
      && (forall i :: 0 <= i < |f.defs| ==> (i in prompted <==> Prompts(f, i, m)))
  {
    TopologicalIsAcyclic(f, written);
    if DistinctVariables(f) {
      AllAnswered(f, written, prompted, m);
    }
  }

  // One question object per definition, none of them asked yet.
  ghost predicate Untouched(order: seq<Question>, defs: seq<Def>)
    reads order
  {
    && |order| == |defs| && Distinct(order)
    && (forall k :: 0 <= k < |order| ==> order[k].def == defs[k] && !order[k].asked && !order[k].inprogress)
  }

  method Build(qs: seq<Spec>, answers: map<string, string>)
    returns (defs: seq<Def>, order: seq<Question>, questions: map<string, nat>)
    ensures defs == Defs(qs, answers) && fresh(order) && Untouched(order, defs) && Registers(defs, questions)
  {
    defs, questions := Register(qs, answers);
    order := [];
    for i := 0 to |defs|
      invariant fresh(order) && Untouched(order, defs[..i])
    {
      order := AddQuestion(order, defs[..i], defs[i]);
      assert defs[..i] + [defs[i]] == defs[..i + 1];
    }
    assert defs[..|defs|] == defs;
  }

  method Register(qs: seq<Spec>, answers: map<string, string>) returns (defs: seq<Def>, questions: map<string, nat>)
    ensures defs == Defs(qs, answers) && Registers(defs, questions)
  {
    defs, questions := [], map[];
    for i := 0 to |qs|
      invariant defs == Defs(qs[..i], answers) && Registers(defs, questions)
    {
      var d := DefOf(qs[i], answers);
      DefsStep(qs, answers, i);
      RegisterOne(defs, questions, d);
      defs, questions := defs + [d], questions[d.variable := i];
    }
    assert qs[..|qs|] == qs;
  }

  method AddQuestion(order: seq<Question>, ghost defs: seq<Def>, d: Def) returns (order': seq<Question>)
    requires Untouched(order, defs)
    ensures |order'| == |order| + 1 && order'[..|order|] == order && fresh(order'[|order|])
    ensures Untouched(order', defs + [d])
  {
    var q := new Question(d);
    assert q !in order;
    order' := order + [q];
  }

  ghost predicate Registers(defs: seq<Def>, questions: map<string, nat>) {
    && (forall v :: v in questions <==> Lookup(defs, v).Some?)
    && (forall v :: v in questions ==> questions[v] == Lookup(defs, v).value)
  }

  lemma RegisterOne(defs: seq<Def>, questions: map<string, nat>, d: Def)
    requires Registers(defs, questions)
    ensures Registers(defs + [d], questions[d.variable := |defs|])
  {
    assert (defs + [d])[..|defs|] == defs;
  }

  // The questions that the first k checks of question i refer to are answered.
  ghost predicate Referenced(f: Form, i: nat, k: nat, written: seq<nat>)
    requires i < |f.defs| && k <= |f.defs[i].checks|
  {
    forall c :: 0 <= c < k && Lookup(f.defs, f.defs[i].checks[c].0).Some? ==>
      Lookup(f.defs, f.defs[i].checks[c].0).value in written
  }

  lemma AllReferenced(f: Form, i: nat, written: seq<nat>)
    requires i < |f.defs| && Referenced(f, i, |f.defs[i].checks|, written)
    ensures forall j: nat :: Edge(f, i, j) ==> j in written
  {
  }

  lemma ExtendWalk(f: Form, path: seq<nat>, k: nat)
    requires Walk(f, path) && path != [] && path[|path| - 1] < |f.defs| && Live(f, path[|path| - 1])
    requires k < |f.defs[path[|path| - 1]].checks|
    requires Lookup(f.defs, f.defs[path[|path| - 1]].checks[k].0).Some?
    ensures Walk(f, path + [Lookup(f.defs, f.defs[path[|path| - 1]].checks[k].0).value])
  {
    var i := path[|path| - 1];
    var j := Lookup(f.defs, f.defs[i].checks[k].0).value;
    assert Edge(f, i, j);
  }

  lemma SubWalk(f: Form, w: seq<nat>, k: nat)
    requires Walk(f, w) && k <= |w|
    ensures Walk(f, w[k..])
  {
    forall x | 0 <= x < |w[k..]| - 1 ensures Edge(f, w[k..][x], w[k..][x + 1]) {
      assert Edge(f, w[k + x], w[k + x + 1]);
    }
  }

  lemma AllAnswered(f: Form, written: seq<nat>, prompted: seq<nat>, m: map<string, string>)
    requires DistinctVariables(f) && Progress(f, written, prompted, m)
    requires forall i :: 0 <= i < |f.defs| ==> i in written
    ensures Consistent(f, m)
    ensures forall m' :: Consistent(f, m') ==> m' == m
    ensures forall i :: 0 <= i < |f.defs| ==> (i in prompted <==> Prompts(f, i, m))
  {
    forall i | 0 <= i < |f.defs|
      ensures f.defs[i].variable in m && m[f.defs[i].variable] == Value(f, i, m)
      ensures i in prompted <==> Prompts(f, i, m)
    {
      AnsweredAt(f, written, prompted, m, i);
    }
    OnlyAnswer(f, written, m);
  }

  lemma AnsweredAt(f: Form, written: seq<nat>, prompted: seq<nat>, m: map<string, string>, i: nat)
    requires AreQuestions(f, written) && Answered(f, written, prompted, m) && i in written && i < |f.defs|
    ensures f.defs[i].variable in m && m[f.defs[i].variable] == Value(f, i, m)
    ensures i in prompted <==> Prompts(f, i, m)
  {
    var k :| 0 <= k < |written| && written[k] == i;
  }

  lemma OnlyAnswer(f: Form, order: seq<nat>, m: map<string, string>)
    requires Topological(f, order) && AreQuestions(f, order) && Consistent(f, m)
    requires forall i :: 0 <= i < |f.defs| ==> i in order
    ensures forall m' :: Consistent(f, m') ==> m' == m
  {
    forall m' | Consistent(f, m') ensures m' == m {
      OneConsistentAnswer(f, order, m, m');
    }
  }
}
