/** The question engine of `rio up` (cli/pkg/up/questions/questions.go): a depth-first search over
    questions whose conditions refer to other questions.

    `Form` is what a session is given; `Questions` is the session, with the mutable flags and the
    shared answer map.  Prompting is an oracle from variable to answer, or to a failure. */
module QuestionsModel {
  import opened Prelude
  import opened Strings

  // ----- what is asked -----

  datatype Spec = Spec(variable: string, default: string, showIf: string)

  type Check = (string, string)

  // The conjuncts of a ShowIf condition: variable and required answer.
  function ParseChecks(parts: seq<string>): seq<Check> {
    if parts == [] then []
    else
      var part := TrimSpace(parts[0]);
      (if part == "" then [] else [KvSplit(part, "=")]) + ParseChecks(parts[1..])
  }

  function NewCondition(showIf: string): seq<Check> {
    ParseChecks(SplitOn(showIf, "&&"))
  }

  function PrintCheck(c: Check): string {
    c.0 + "=" + c.1
  }

  // A conjunction of clean comparisons parses back to them.
  lemma {:induction false} ConditionParses(checks: seq<Check>)
    requires checks != []
    requires forall i :: 0 <= i < |checks| ==>
      && Trimmed(checks[i].0) && Trimmed(checks[i].1) && '=' !in checks[i].0
      && '&' !in checks[i].0 && '&' !in checks[i].1
    ensures NewCondition(Join(seq(|checks|, i requires 0 <= i < |checks| => PrintCheck(checks[i])), "&&")) == checks
  {
    var parts := seq(|checks|, i requires 0 <= i < |checks| => PrintCheck(checks[i]));
    SplitJoin(parts, "&&");
    ChecksParse(checks, parts);
  }

  lemma {:induction false} ChecksParse(checks: seq<Check>, parts: seq<string>)
    requires |parts| == |checks|
    requires forall i :: 0 <= i < |checks| ==>
      parts[i] == PrintCheck(checks[i]) && Trimmed(checks[i].0) && Trimmed(checks[i].1) && '=' !in checks[i].0
    ensures ParseChecks(parts) == checks
  {
    if checks != [] {
      SplitFound(checks[0].0, "=", checks[0].1);
      assert Trimmed(parts[0]);
      ChecksParse(checks[1..], parts[1..]);
    }
  }

  datatype Def = Def(variable: string, default: string, oldAnswer: string, checks: seq<Check>)

  datatype Form = Form(defs: seq<Def>, force: bool, prompt: string -> Option<string>)

  // The question registered under a variable: the last one with that name.
  function Lookup(defs: seq<Def>, v: string): (r: Option<nat>)
    ensures r.Some? ==> r.value < |defs| && defs[r.value].variable == v
  {
    if defs == [] then None
    else if defs[|defs| - 1].variable == v then Some(|defs| - 1)
    else Lookup(defs[..|defs| - 1], v)
  }

  function Answer(m: map<string, string>, v: string): string {
    if v in m then m[v] else ""
  }

  // ----- the graph of conditions -----

  // Only a question without a usable old answer looks at its condition.
  predicate Live(f: Form, i: nat)
    requires i < |f.defs|
  {
    f.defs[i].oldAnswer == "" || f.force
  }

  ghost predicate Edge(f: Form, i: nat, j: nat) {
    && i < |f.defs| && Live(f, i)
    && exists k :: 0 <= k < |f.defs[i].checks| && Lookup(f.defs, f.defs[i].checks[k].0) == Some(j)
  }

  ghost predicate Walk(f: Form, w: seq<nat>) {
    forall k :: 0 <= k < |w| - 1 ==> Edge(f, w[k], w[k + 1])
  }

  ghost predicate ClosedWalk(f: Form, w: seq<nat>) {
    |w| >= 2 && Walk(f, w) && w[0] == w[|w| - 1]
  }

  ghost predicate Cyclic(f: Form) {
    exists w :: ClosedWalk(f, w)
  }

  predicate AreQuestions(f: Form, order: seq<nat>) {
    forall k :: 0 <= k < |order| ==> order[k] < |f.defs|
  }

  // Every edge out of a listed question leads to one listed before it.
  ghost predicate Topological(f: Form, order: seq<nat>) {
    forall k: nat, j: nat :: k < |order| && Edge(f, order[k], j) ==> j in order[..k]
  }

  function Position(order: seq<nat>, i: nat): (k: nat)
    requires i in order
    ensures k < |order| && order[k] == i && i !in order[..k]
  {
    if order[0] == i then 0 else 1 + Position(order[1..], i)
  }

  lemma EdgeEndsAreQuestions(f: Form, i: nat, j: nat)
    requires Edge(f, i, j)
    ensures j < |f.defs|
  {
  }

  // A walk that starts at a listed question stays in the list and moves strictly towards its front.
  lemma {:induction false} WalkDescends(f: Form, order: seq<nat>, w: seq<nat>)
    requires Topological(f, order) && Walk(f, w) && |w| >= 2 && w[0] in order
    ensures w[|w| - 1] in order && Position(order, w[|w| - 1]) < Position(order, w[0])
    decreases |w|
  {
    var k := Position(order, w[0]);
    EdgeEndsAreQuestions(f, w[0], w[1]);
    assert w[1] in order[..k];
    var m := Position(order[..k], w[1]);
    assert order[m] == w[1];
    PositionIsFirst(order, w[1], m);
    if |w| > 2 {
      assert forall x :: 0 <= x < |w| - 2 ==> Edge(f, w[1..][x], w[1..][x + 1]) by {
        assert forall x :: 0 <= x < |w| - 1 ==> w[1..][x] == w[x + 1];
      }
      WalkDescends(f, order, w[1..]);
    }
  }

  lemma {:induction false} PositionIsFirst(order: seq<nat>, i: nat, m: nat)
    requires m < |order| && order[m] == i
    ensures Position(order, i) <= m
  {
    if order[0] != i {
      PositionIsFirst(order[1..], i, m - 1);
    }
  }

  // A topological order of all questions rules out cycles.
  lemma TopologicalIsAcyclic(f: Form, order: seq<nat>)
    requires Topological(f, order) && forall i :: 0 <= i < |f.defs| ==> i in order
    ensures !Cyclic(f)
  {
    forall w | ClosedWalk(f, w) ensures false {
      assert Edge(f, w[0], w[1]);
      WalkDescends(f, order, w);
    }
  }

  // ----- the answers -----

  predicate ChecksHold(f: Form, i: nat, m: map<string, string>)
    requires i < |f.defs|
  {
    forall k :: 0 <= k < |f.defs[i].checks| ==> Answer(m, f.defs[i].checks[k].0) == f.defs[i].checks[k].1
  }

  predicate Prompts(f: Form, i: nat, m: map<string, string>)
    requires i < |f.defs|
  {
    Live(f, i) && ChecksHold(f, i, m)
  }

  function Value(f: Form, i: nat, m: map<string, string>): string
    requires i < |f.defs|
  {
    var d := f.defs[i];
    if Prompts(f, i, m) then (if f.prompt(d.variable).Some? then f.prompt(d.variable).value else "")
    else if d.oldAnswer != "" then d.oldAnswer
    else d.default
  }

  predicate DistinctVariables(f: Form) {
    forall i, j :: 0 <= i < j < |f.defs| ==> f.defs[i].variable != f.defs[j].variable
  }

  // Every question has the answer its own condition, evaluated on these same answers, calls for.
  ghost predicate Consistent(f: Form, m: map<string, string>) {
    && (forall v :: v in m ==> Lookup(f.defs, v).Some?)
    && (forall i :: 0 <= i < |f.defs| ==> f.defs[i].variable in m && m[f.defs[i].variable] == Value(f, i, m))
  }

  // The keys of m are the variables of the listed questions.
  ghost predicate AnswersFor(f: Form, order: seq<nat>, m: map<string, string>)
    requires AreQuestions(f, order)
  {
    && (forall k :: 0 <= k < |order| ==> f.defs[order[k]].variable in m)
    && (forall v :: v in m ==> Lookup(f.defs, v).Some? && Lookup(f.defs, v).value in order)
  }

  // The answers so far, and which of them were prompted for.
  ghost predicate Answered(f: Form, written: seq<nat>, prompted: seq<nat>, m: map<string, string>)
    requires AreQuestions(f, written)
  {
    && AnswersFor(f, written, m)
    && (forall k :: 0 <= k < |written| ==> m[f.defs[written[k]].variable] == Value(f, written[k], m))
    && (forall k :: 0 <= k < |written| ==> (written[k] in prompted <==> Prompts(f, written[k], m)))
  }

  // What a session has done: `written` are the questions answered, in order, `prompted` those
  // whose answer was asked for.
  ghost predicate Progress(f: Form, written: seq<nat>, prompted: seq<nat>, m: map<string, string>) {
    && AreQuestions(f, written) && Distinct(written) && Topological(f, written)
    && Distinct(prompted) && (forall i :: i in prompted ==> i in written)
    && (DistinctVariables(f) ==> Answered(f, written, prompted, m))
  }

  lemma {:induction false} LookupFinds(defs: seq<Def>, i: nat)
    requires i < |defs|
    ensures Lookup(defs, defs[i].variable).Some?
  {
    if i < |defs| - 1 {
      LookupFinds(defs[..|defs| - 1], i);
    }
  }

  lemma LookupIsUnique(f: Form, i: nat)
    requires i < |f.defs| && DistinctVariables(f)
    ensures Lookup(f.defs, f.defs[i].variable) == Some(i)
  {
    LookupFinds(f.defs, i);
  }

  // Two answer maps that read the same at every check of a question treat it the same.
  lemma SameReads(f: Form, i: nat, m: map<string, string>, m': map<string, string>)
    requires i < |f.defs|
    requires Live(f, i) ==> forall c :: 0 <= c < |f.defs[i].checks| ==>
      Answer(m, f.defs[i].checks[c].0) == Answer(m', f.defs[i].checks[c].0)
    ensures Prompts(f, i, m) == Prompts(f, i, m') && Value(f, i, m) == Value(f, i, m')
  {
  }

  // Answering question i leaves alone what a question reads whose condition refers only to
  // answered ones.
  lemma ReadsAreStable(f: Form, written: seq<nat>, j: nat, m: map<string, string>, i: nat, answer: string)
    requires DistinctVariables(f) && AreQuestions(f, written) && i < |f.defs| && j < |f.defs| && i !in written
    requires forall t: nat :: Edge(f, j, t) ==> t in written
    ensures
      var m' := m[f.defs[i].variable := answer];
      Prompts(f, j, m) == Prompts(f, j, m') && Value(f, j, m) == Value(f, j, m')
  {
    var m' := m[f.defs[i].variable := answer];
    if Live(f, j) {
      forall c | 0 <= c < |f.defs[j].checks|
        ensures Answer(m, f.defs[j].checks[c].0) == Answer(m', f.defs[j].checks[c].0)
      {
        LookupFinds(f.defs, i);
        var t := Lookup(f.defs, f.defs[j].checks[c].0);
        if t.Some? {
          assert Edge(f, j, t.value);
        }
      }
    }
    SameReads(f, j, m, m');
  }

  lemma ExtendOrder(f: Form, written: seq<nat>, i: nat)
    requires Topological(f, written) && forall t: nat :: Edge(f, i, t) ==> t in written
    ensures Topological(f, written + [i])
  {
    var w := written + [i];
    forall k: nat, j: nat | k < |w| && Edge(f, w[k], j) ensures j in w[..k] {
      assert w[..k] == if k < |written| then written[..k] else written;
    }
  }

  lemma ExtendAnswers(f: Form, written: seq<nat>, prompted: seq<nat>, m: map<string, string>, i: nat)
    requires DistinctVariables(f) && AreQuestions(f, written) && Topological(f, written)
    requires Answered(f, written, prompted, m) && i < |f.defs| && i !in written && i !in prompted
    requires forall t: nat :: Edge(f, i, t) ==> t in written
    ensures
      var p := if Prompts(f, i, m) then prompted + [i] else prompted;
      Answered(f, written + [i], p, m[f.defs[i].variable := Value(f, i, m)])
  {
    var w, v, answer := written + [i], f.defs[i].variable, Value(f, i, m);
    var m', p := m[v := answer], if Prompts(f, i, m) then prompted + [i] else prompted;
    forall k | 0 <= k < |w|
      ensures f.defs[w[k]].variable in m' && m'[f.defs[w[k]].variable] == Value(f, w[k], m')
      ensures w[k] in p <==> Prompts(f, w[k], m')
    {
      if k < |written| {
        assert forall t: nat :: Edge(f, written[k], t) ==> t in written[..k];
        assert written[k] in written;
      }
      ReadsAreStable(f, written, w[k], m, i, answer);
    }
    LookupIsUnique(f, i);
  }

  // Answering one more question whose condition refers only to answered ones.
  lemma Extend(f: Form, written: seq<nat>, prompted: seq<nat>, m: map<string, string>, i: nat)
    requires Progress(f, written, prompted, m) && i < |f.defs| && i !in written
    requires forall t: nat :: Edge(f, i, t) ==> t in written
    ensures
      Progress(f, written + [i], if Prompts(f, i, m) then prompted + [i] else prompted,
               m[f.defs[i].variable := Value(f, i, m)])
  {
    ExtendOrder(f, written, i);
    if DistinctVariables(f) {
      ExtendAnswers(f, written, prompted, m, i);
    }
  }

  predicate SameAnswer(f: Form, i: nat, m: map<string, string>, m': map<string, string>)
    requires i < |f.defs|
  {
    Answer(m, f.defs[i].variable) == Answer(m', f.defs[i].variable)
  }

  // The answers agree on the first k questions of the order.
  ghost predicate AgreeUpTo(f: Form, order: seq<nat>, k: nat, m: map<string, string>, m': map<string, string>)
    requires AreQuestions(f, order) && k <= |order|
  {
    forall x :: 0 <= x < k ==> SameAnswer(f, order[x], m, m')
  }

  // With a topological order of all questions there is only one consistent set of answers.
  lemma {:induction false} AnswersAreUnique(f: Form, order: seq<nat>, k: nat, m: map<string, string>,
                                            m': map<string, string>)
    requires Topological(f, order) && AreQuestions(f, order) && k <= |order|
    requires Consistent(f, m) && Consistent(f, m')
    ensures AgreeUpTo(f, order, k, m, m')
  {
    if k > 0 {
      AnswersAreUnique(f, order, k - 1, m, m');
      NextAnswer(f, order, k, m, m');
      AgreeStep(f, order, k, m, m');
    }
  }

  lemma AgreeStep(f: Form, order: seq<nat>, k: nat, m: map<string, string>, m': map<string, string>)
    requires AreQuestions(f, order) && 0 < k <= |order|
    requires AgreeUpTo(f, order, k - 1, m, m') && SameAnswer(f, order[k - 1], m, m')
    ensures AgreeUpTo(f, order, k, m, m')
  {
  }

  lemma NextAnswer(f: Form, order: seq<nat>, k: nat, m: map<string, string>, m': map<string, string>)
    requires Topological(f, order) && AreQuestions(f, order) && 0 < k <= |order|
    requires Consistent(f, m) && Consistent(f, m')
    requires AgreeUpTo(f, order, k - 1, m, m')
    ensures SameAnswer(f, order[k - 1], m, m')
  {
    var i := order[k - 1];
    if Live(f, i) {
      forall c | 0 <= c < |f.defs[i].checks|
        ensures Answer(m, f.defs[i].checks[c].0) == Answer(m', f.defs[i].checks[c].0)
      {
        SameReadAt(f, order, k, m, m', c);
      }
    }
    SameReads(f, i, m, m');
  }

  lemma SameReadAt(f: Form, order: seq<nat>, k: nat, m: map<string, string>, m': map<string, string>, c: nat)
    requires Topological(f, order) && AreQuestions(f, order) && 0 < k <= |order|
    requires Consistent(f, m) && Consistent(f, m')
    requires AgreeUpTo(f, order, k - 1, m, m')
    requires c < |f.defs[order[k - 1]].checks| && Live(f, order[k - 1])
    ensures var u := f.defs[order[k - 1]].checks[c].0; Answer(m, u) == Answer(m', u)
  {
    var u := f.defs[order[k - 1]].checks[c].0;
    match Lookup(f.defs, u)
    case Some(t) =>
      assert Edge(f, order[k - 1], t);
      var x :| 0 <= x < k - 1 && order[x] == t;
      assert SameAnswer(f, order[x], m, m');
    case None =>
  }

  lemma OneConsistentAnswer(f: Form, order: seq<nat>, m: map<string, string>, m': map<string, string>)
    requires Topological(f, order) && AreQuestions(f, order)
    requires forall i :: 0 <= i < |f.defs| ==> i in order
    requires Consistent(f, m) && Consistent(f, m')
    ensures m == m'
  {
    AnswersAreUnique(f, order, |order|, m, m');
    SameKeys(f, m, m');
    SameKeys(f, m', m);
    forall v | v in m ensures Answer(m, v) == Answer(m', v) {
      AnswerOf(f, order, m, m', v);
    }
    assert forall v | v in m :: m[v] == Answer(m, v) && m'[v] == Answer(m', v);
  }

  lemma AnswerOf(f: Form, order: seq<nat>, m: map<string, string>, m': map<string, string>, v: string)
    requires AreQuestions(f, order) && Lookup(f.defs, v).Some? && Lookup(f.defs, v).value in order
    requires AgreeUpTo(f, order, |order|, m, m')
    ensures Answer(m, v) == Answer(m', v)
  {
    var x :| 0 <= x < |order| && order[x] == Lookup(f.defs, v).value;
    assert SameAnswer(f, order[x], m, m');
  }

  lemma SameKeys(f: Form, m: map<string, string>, m': map<string, string>)
    requires Consistent(f, m) && Consistent(f, m')
    ensures m.Keys <= m'.Keys
  {
  }

  // The order in which questions are declared does not matter: two forms with the same questions
  // have the same consistent answers, and so the same result.
  lemma OrderDoesNotMatter(f: Form, defs: seq<Def>, m: map<string, string>)
    requires forall d :: d in f.defs <==> d in defs
    ensures Consistent(f, m) <==> Consistent(f.(defs := defs), m)
  {
    SameQuestions(f, f.(defs := defs), m);
    SameQuestions(f.(defs := defs), f, m);
  }

  lemma SameQuestions(f: Form, g: Form, m: map<string, string>)
    requires g == f.(defs := g.defs) && forall d :: d in g.defs ==> d in f.defs
    requires forall d :: d in f.defs ==> d in g.defs
    ensures Consistent(f, m) ==> Consistent(g, m)
  {
    if Consistent(f, m) {
      forall v | v in m ensures Lookup(g.defs, v).Some? {
        var d := f.defs[Lookup(f.defs, v).value];
        assert d in g.defs;
        var j :| 0 <= j < |g.defs| && g.defs[j] == d;
        LookupFinds(g.defs, j);
      }
      forall j | 0 <= j < |g.defs| ensures g.defs[j].variable in m && m[g.defs[j].variable] == Value(g, j, m) {
        assert g.defs[j] in f.defs;
        var i :| 0 <= i < |f.defs| && f.defs[i] == g.defs[j];
        assert Value(f, i, m) == Value(g, j, m);
      }
    }
  }
}
