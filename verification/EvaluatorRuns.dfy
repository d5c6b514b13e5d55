/** Runs of the evaluator: each condition's lifecycle state is the one its
    observation history gives, in order, whatever crashed and was forgotten. */
module EvaluatorRuns {
  import opened Common
  import opened Lifecycle
  import opened Paging
  import opened EventIdentity
  import opened Delivery
  import opened DeliveryLaws

  /** One pass: what it ran on and how it ended. */
  datatype Turn = Turn(x: Inputs, answers: seq<Answer>, result: PassResult)

  /** Passes one after another, with the state file before and after each. */
  ghost predicate Run(turns: seq<Turn>, files: seq<File>) {
    && |files| == |turns| + 1 && files[0] == File(map[], 0)
    && forall i, j :: 0 <= i < |turns| && j == i + 1 ==> Follows(files[i], turns[i], files[j])
  }

  ghost predicate Follows(before: File, t: Turn, after: File) {
    before.saved.Keys <= t.x.readings.Keys && Evaluates(before, t.x, t.answers, t.result, after)
  }

  /** The pass reached the save of its plan, so its observations count. */
  predicate Counts(t: Turn, id: string) {
    (t.result.Crashed? || t.result.Completed?) && id in t.x.readings
  }

  function EntryOf(t: Turn, id: string): Entry
    requires id in t.x.readings
  {
    Entry(t.x.readings[id].observation, t.x.now, t.x.readings[id].persistence)
  }

  /** What the passes observed of a condition. */
  ghost function History(turns: seq<Turn>, id: string): seq<Entry> {
    if turns == [] then []
    else
      var n := |turns| - 1;
      History(turns[..n], id) + if Counts(turns[n], id) then [EntryOf(turns[n], id)] else []
  }

  /** After which entries the condition was forgotten. */
  ghost function Drops(turns: seq<Turn>, files: seq<File>, id: string): set<nat>
    requires |files| == |turns| + 1
  {
    if turns == [] then {}
    else
      var n := |turns| - 1;
      Drops(turns[..n], files[..n + 1], id) +
      if Counts(turns[n], id) && id !in files[n + 1].saved then {|History(turns[..n], id)|} else {}
  }

  function LifeIn(f: File, id: string): State {
    if id in f.saved then f.saved[id].life else Fresh
  }

  // ----- one pass -----------------------------------------------------------------------

  lemma {:induction false} SameConditions(start: Progress, plan: seq<Planned>, answers: seq<Answer>, now: int, k: nat)
    requires k <= |plan| && k <= |answers|
    ensures Submitted(start, plan, answers, now, k).conditions.Keys == start.conditions.Keys
  {
    if k > 0 {
      SameConditions(start, plan, answers, now, k - 1);
    }
  }

  /** The conditions before retention: those read, each one step further. */
  lemma PassSteps(before: File, t: Turn, k: nat, id: string)
    requires (t.result.Crashed? || t.result.Completed?) && k <= |t.result.plan| && k <= |t.answers|
    ensures var c := Submitted(Begun(Plans(before.saved, t.x)), t.result.plan, t.answers, t.x.now, k).conditions;
      && (id in c <==> id in t.x.readings)
      && (id in c ==> c[id].life == Reconcile(Loaded(before.saved, t.x, id), t.x.readings[id], t.x.now).state)
  {
    var start := Begun(Plans(before.saved, t.x));
    SameConditions(start, t.result.plan, t.answers, t.x.now, k);
    if id in t.x.readings {
      LifeKept(start, t.result.plan, t.answers, t.x.now, k, id);
    }
  }

  lemma KeptLife(c: Conditions, routes: Routes, id: string)
    ensures id in Retained(c, routes) ==> id in c && Retained(c, routes)[id].life == c[id].life
    ensures id in c && id !in Retained(c, routes) ==> Settled(c[id].life)
  {
  }

  /** What one pass does to one condition: nothing, or one step of its lifecycle, after which it may be forgotten. */
  ghost predicate LifeFollows(before: File, t: Turn, after: File, id: string) {
    && before.updatedAt <= after.updatedAt
    && if !Counts(t, id) then LifeIn(after, id) == LifeIn(before, id)
       else
         var c := Stepped(LifeIn(before, id), EntryOf(t, id));
         && before.updatedAt <= t.x.now == after.updatedAt
         && if id in after.saved then LifeIn(after, id) == c else Settled(c)
  }

  function Stepped(c: State, e: Entry): State {
    Step(c, e.kind, e.persistence, e.at).state
  }

  lemma LoadedLife(before: File, x: Inputs, id: string)
    requires id in x.readings
    ensures Loaded(before.saved, x, id).life == LifeIn(before, id)
    ensures Reconcile(Loaded(before.saved, x, id), x.readings[id], x.now).state ==
      Stepped(LifeIn(before, id), Entry(x.readings[id].observation, x.now, x.readings[id].persistence))
  {
  }

  lemma CrashFollows(before: File, t: Turn, after: File, id: string)
    requires Follows(before, t, after) && t.result.Crashed?
    ensures LifeFollows(before, t, after, id)
  {
    PassSteps(before, t, Min(|t.result.plan|, |t.answers|), id);
    if id in t.x.readings {
      LoadedLife(before, t.x, id);
    }
  }

  lemma RetentionFollows(before: File, t: Turn, after: File, id: string, c: Conditions)
    requires t.result.Completed? && before.saved.Keys <= t.x.readings.Keys
    requires before.updatedAt <= t.x.now == after.updatedAt && after.saved == Retained(c, t.x.routes)
    requires id in c <==> id in t.x.readings
    requires id in c ==> c[id].life == Stepped(LifeIn(before, id), EntryOf(t, id))
    ensures LifeFollows(before, t, after, id)
  {
    KeptLife(c, t.x.routes, id);
  }

  lemma CompletionFollows(before: File, t: Turn, after: File, id: string)
    requires Follows(before, t, after) && t.result.Completed?
    ensures LifeFollows(before, t, after, id)
  {
    PassSteps(before, t, |t.result.plan|, id);
    if id in t.x.readings {
      LoadedLife(before, t.x, id);
    }
    RetentionFollows(before, t, after, id,
                     Submitted(Begun(Plans(before.saved, t.x)), t.result.plan, t.answers, t.x.now, |t.result.plan|).conditions);
  }

  lemma TurnFollows(before: File, t: Turn, after: File, id: string)
    requires Follows(before, t, after)
    ensures LifeFollows(before, t, after, id)
  {
    if t.result.Crashed? {
      CrashFollows(before, t, after, id);
    } else if t.result.Completed? {
      CompletionFollows(before, t, after, id);
    }
  }

  // ----- whole runs ---------------------------------------------------------------------

  lemma {:induction false} ForgetPrefix(h: seq<Entry>, d: set<nat>, g: seq<Entry>, e: set<nat>, n: nat)
    requires n <= |h| && n <= |g| && h[..n] == g[..n] && forall i :: 0 <= i < n ==> (i in d <==> i in e)
    ensures AfterForgetting(h, d, n) == AfterForgetting(g, e, n)
  {
    if n > 0 {
      assert h[..n - 1] == h[..n][..n - 1] && h[n - 1] == h[..n][n - 1] && g[n - 1] == g[..n][n - 1];
      ForgetPrefix(h, d, g, e, n - 1);
    }
  }

  lemma {:induction false} DropsWithin(turns: seq<Turn>, files: seq<File>, id: string)
    requires |files| == |turns| + 1
    ensures forall i :: i in Drops(turns, files, id) ==> i < |History(turns, id)|
  {
    if turns != [] {
      DropsWithin(turns[..|turns| - 1], files[..|turns|], id);
    }
  }

  /** A run as one condition sees it. */
  ghost predicate LifeRun(turns: seq<Turn>, files: seq<File>, id: string) {
    && |files| == |turns| + 1 && id !in files[0].saved
    && forall i, j :: 0 <= i < |turns| && j == i + 1 ==> LifeFollows(files[i], turns[i], files[j], id)
  }

  lemma RunIsLifeRun(turns: seq<Turn>, files: seq<File>, id: string)
    requires Run(turns, files)
    ensures LifeRun(turns, files, id)
  {
    forall i, j | 0 <= i < |turns| && j == i + 1
      ensures LifeFollows(files[i], turns[i], files[j], id)
    {
      assert Follows(files[i], turns[i], files[j]);
      TurnFollows(files[i], turns[i], files[j], id);
    }
  }

  lemma LifeRunPrefix(turns: seq<Turn>, files: seq<File>, id: string, n: nat)
    requires LifeRun(turns, files, id) && n <= |turns|
    ensures LifeRun(turns[..n], files[..n + 1], id)
  {
    var us, gs := turns[..n], files[..n + 1];
    forall i, j | 0 <= i < |us| && j == i + 1
      ensures LifeFollows(gs[i], us[i], gs[j], id)
    {
      assert LifeFollows(files[i], turns[i], files[j], id);
    }
  }

  /** The lifecycle state on file is the one the condition's history gives, and
      that history is in order of time. */
  ghost predicate Agrees(turns: seq<Turn>, files: seq<File>, id: string)
    requires |files| == |turns| + 1
  {
    var h := History(turns, id);
    && Ordered(h) && (forall i :: 0 <= i < |h| ==> h[i].at <= files[|turns|].updatedAt)
    && LifeIn(files[|turns|], id) == AfterForgetting(h, Drops(turns, files, id), |h|)
  }

  lemma {:induction false} LifeRunAgrees(turns: seq<Turn>, files: seq<File>, id: string)
    requires LifeRun(turns, files, id)
    ensures Agrees(turns, files, id)
  {
    if turns != [] {
      var n := |turns| - 1;
      LifeRunPrefix(turns, files, id, n);
      LifeRunAgrees(turns[..n], files[..n + 1], id);
      assert LifeFollows(files[n], turns[n], files[n + 1], id);
      DropsWithin(turns[..n], files[..n + 1], id);
      ForgetPrefix(History(turns[..n], id), Drops(turns[..n], files[..n + 1], id),
                   History(turns, id), Drops(turns, files, id), |History(turns[..n], id)|);
    }
  }

  lemma LifeIsHistory(turns: seq<Turn>, files: seq<File>, id: string)
    requires Run(turns, files)
    ensures Agrees(turns, files, id)
  {
    RunIsLifeRun(turns, files, id);
    LifeRunAgrees(turns, files, id);
  }

  // ----- transitions of a run ---------------------------------------------------------------

  /** The transition that pass `k` decides for the condition. */
  ghost function TransitionAt(turns: seq<Turn>, files: seq<File>, id: string, k: nat): Option<Action>
    requires |files| == |turns| + 1 && k < |turns| && id in turns[k].x.readings
  {
    Reconcile(Loaded(files[k].saved, turns[k].x, id), turns[k].x.readings[id], turns[k].x.now).transition
  }

  lemma TransitionOfLife(f: File, x: Inputs, id: string)
    requires id in x.readings
    ensures Reconcile(Loaded(f.saved, x, id), x.readings[id], x.now).transition ==
      Step(LifeIn(f, id), x.readings[id].observation, x.readings[id].persistence, x.now).action
  {
  }

  lemma {:induction false} HistoryPrefix(turns: seq<Turn>, files: seq<File>, id: string, k: nat)
    requires |files| == |turns| + 1 && k <= |turns|
    ensures History(turns[..k], id) <= History(turns, id)
    ensures forall i :: 0 <= i < |History(turns[..k], id)| ==>
      (i in Drops(turns[..k], files[..k + 1], id) <==> i in Drops(turns, files, id))
  {
    if k == |turns| {
      assert turns[..k] == turns && files[..k + 1] == files;
    } else {
      var n := |turns| - 1;
      assert turns[..n][..k] == turns[..k] && files[..n + 1][..k + 1] == files[..k + 1];
      HistoryPrefix(turns[..n], files[..n + 1], id, k);
    }
  }

  /** Each transition of a run is the decision that the forgetful history takes at its entry. */
  lemma TransitionIsDecision(turns: seq<Turn>, files: seq<File>, id: string, k: nat) returns (j: nat)
    requires LifeRun(turns, files, id) && k < |turns| && Counts(turns[k], id)
    ensures j == |History(turns[..k], id)| < |History(turns, id)| && History(turns, id)[j] == EntryOf(turns[k], id)
    ensures DecisionForgetting(History(turns, id), Drops(turns, files, id), j) == TransitionAt(turns, files, id, k)
  {
    var h, before := History(turns, id), History(turns[..k], id);
    j := |before|;
    LifeRunPrefix(turns, files, id, k);
    LifeRunAgrees(turns[..k], files[..k + 1], id);
    HistoryPrefix(turns, files, id, k);
    HistoryPrefix(turns, files, id, k + 1);
    assert turns[..k + 1][..k] == turns[..k];
    ForgetPrefix(before, Drops(turns[..k], files[..k + 1], id), h, Drops(turns, files, id), j);
    TransitionOfLife(files[k], turns[k].x, id);
  }

  lemma {:induction false} HistoryGrows(turns: seq<Turn>, id: string, k: nat, l: nat)
    requires k < l <= |turns| && Counts(turns[k], id)
    ensures |History(turns[..k], id)| < |History(turns[..l], id)|
  {
    assert turns[..l][..l - 1] == turns[..l - 1];
    if k < l - 1 {
      HistoryGrows(turns, id, k, l - 1);
    }
  }

  lemma {:induction false} HistoryBounds(turns: seq<Turn>, id: string)
    requires forall i :: 0 <= i < |turns| && id in turns[i].x.readings ==> turns[i].x.readings[id].persistence >= 0
    ensures forall e :: e in History(turns, id) ==> e.persistence >= 0
  {
    if turns != [] {
      HistoryBounds(turns[..|turns| - 1], id);
    }
  }

  /** Over every run of passes, crashes and forgetting included, no two
      transitions of a condition share an identity, and times of the same
      action strictly increase. */
  lemma RunIdentitiesFresh(turns: seq<Turn>, files: seq<File>, id: string, key: Key, k: nat, l: nat)
    requires Run(turns, files) && k < l < |turns| && Counts(turns[k], id) && Counts(turns[l], id)
    requires forall i :: 0 <= i < |turns| && id in turns[i].x.readings ==> turns[i].x.readings[id].persistence >= 0
    requires TransitionAt(turns, files, id, k).Some? && TransitionAt(turns, files, id, l).Some?
    ensures var a, b := TransitionAt(turns, files, id, k).value, TransitionAt(turns, files, id, l).value;
      && EventId(key, a, turns[k].x.now) != EventId(key, b, turns[l].x.now)
      && (a == b ==> turns[k].x.now < turns[l].x.now)
  {
    RunIsLifeRun(turns, files, id);
    LifeRunAgrees(turns, files, id);
    HistoryBounds(turns, id);
    HistoryGrows(turns, id, k, l);
    var i := TransitionIsDecision(turns, files, id, k);
    var j := TransitionIsDecision(turns, files, id, l);
    IdentitiesFresh(key, History(turns, id), Drops(turns, files, id), i, j);
  }
}
