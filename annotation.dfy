/**
 * The human annotation tool: a cursor over the loaded issues, driven by the reviewer's
 * answers. `a` records agreement, `d` disagreement, `s` skips, `q` saves the cursor and
 * stops; every step is written to the output file, and the cursor goes back to 0 once the
 * list is finished. The reviewer is a sequence of typed answers; an answer outside the four
 * choices is asked again, and running out of answers aborts the prompt.
 */
module Annotation {
  import opened Wrappers

  datatype UserAnnotation = UserAnnotation(isApiChange: bool)

  datatype AnnIssue = AnnIssue(number: int, title: string, authorAnnotation: Option<UserAnnotation>)

  /** What `save_json` writes: the issues and the cursor. */
  datatype Snapshot = Snapshot(issues: seq<AnnIssue>, progress: nat)

  // ---------------------------------------------------------------------------
  // Loading
  // ---------------------------------------------------------------------------

  /** The top-level shapes the input file can have. */
  datatype Document =
    | ListDoc(items: seq<AnnIssue>)
    | DictDoc(searchResults: Option<seq<AnnIssue>>, issues: Option<seq<AnnIssue>>, progress: Option<int>)
    | ScalarDoc

  datatype LoadError = NotAnObject | MissingIssues | NegativeProgress

  /** `load_json`: a bare list, or an object with `search_results`, starts at 0; any other
      object is validated as saved data, whose `progress` defaults to 0 and must be at least 0. */
  function LoadJson(doc: Document): Result<Snapshot, LoadError> {
    match doc
    case ListDoc(items) => Success(Snapshot(items, 0))
    case ScalarDoc => Failure(NotAnObject)
    case DictDoc(searchResults, issues, progress) =>
      if searchResults.Some? then Success(Snapshot(searchResults.value, 0))
      else if issues.None? then Failure(MissingIssues)
      else if progress.None? then Success(Snapshot(issues.value, 0))
      else if progress.value < 0 then Failure(NegativeProgress)
      else Success(Snapshot(issues.value, progress.value))
  }

  /** `save_json`: the data as an object with `issues` and `progress`. */
  function SaveJson(data: Snapshot): Document {
    DictDoc(None, Some(data.issues), Some(data.progress))
  }

  /** A saved file loads back as the data that was saved. */
  lemma SaveThenLoad(data: Snapshot)
    ensures LoadJson(SaveJson(data)) == Success(data)
  {
  }

  // ---------------------------------------------------------------------------
  // Answers
  // ---------------------------------------------------------------------------

  datatype Action = Agree | Disagree | Skip | Quit

  /** The choice `a`, `d`, `s` or `q`; anything else is not accepted. */
  function ParseAction(answer: string): (r: Option<Action>)
    ensures r.Some? <==> answer == "a" || answer == "d" || answer == "s" || answer == "q"
  {
    if answer == "a" then Some(Agree)
    else if answer == "d" then Some(Disagree)
    else if answer == "s" then Some(Skip)
    else if answer == "q" then Some(Quit)
    else None
  }

  /** The accepted answers, in order: the prompt asks again after any other. */
  function ValidActions(answers: seq<string>): (acts: seq<Action>)
    ensures |acts| <= |answers|
    decreases |answers|
  {
    if |answers| == 0 then []
    else
      var rest := ValidActions(answers[1..]);
      match ParseAction(answers[0])
      case None => rest
      case Some(a) => [a] + rest
  }

  /** The accepted answers of a concatenation are those of each part, in order, and one
      answer contributes its action exactly when it is accepted: an in-order filter. */
  lemma {:induction false} ValidActionsFilter(a: seq<string>, b: seq<string>)
    ensures ValidActions(a + b) == ValidActions(a) + ValidActions(b)
    ensures |a| == 1 ==> ValidActions(a) == (if ParseAction(a[0]).Some? then [ParseAction(a[0]).value] else [])
    decreases |a|
  {
    if |a| == 0 {
      assert a + b == b;
    } else {
      assert (a + b)[1..] == a[1..] + b;
      assert (a + b)[0] == a[0];
      ValidActionsFilter(a[1..], b);
      if |a| == 1 {
        assert a[1..] == [];
      }
    }
  }

  /** An action is among the accepted answers exactly when some answer parses to it. */
  lemma {:induction false} ValidActionsMembers(answers: seq<string>, act: Action)
    ensures act in ValidActions(answers) <==> exists i :: 0 <= i < |answers| && ParseAction(answers[i]) == Some(act)
    decreases |answers|
  {
    if |answers| > 0 {
      ValidActionsMembers(answers[1..], act);
      if exists i :: 0 <= i < |answers[1..]| && ParseAction(answers[1..][i]) == Some(act) {
        var i :| 0 <= i < |answers[1..]| && ParseAction(answers[1..][i]) == Some(act);
        assert ParseAction(answers[i + 1]) == Some(act);
      }
      if exists i :: 0 <= i < |answers| && ParseAction(answers[i]) == Some(act) {
        var i :| 0 <= i < |answers| && ParseAction(answers[i]) == Some(act);
        if i > 0 {
          assert ParseAction(answers[1..][i - 1]) == Some(act);
        }
      }
    }
  }

  /** The issue after an `a`, `d` or `s` answer. */
  function Apply(issue: AnnIssue, action: Action): AnnIssue {
    if action == Agree then issue.(authorAnnotation := Some(UserAnnotation(true)))
    else if action == Disagree then issue.(authorAnnotation := Some(UserAnnotation(false)))
    else issue
  }

  // ---------------------------------------------------------------------------
  // A session
  // ---------------------------------------------------------------------------

  datatype Outcome = Finished | Quitted | Aborted

  datatype SessionResult = SessionResult(issues: seq<AnnIssue>, progress: nat, saves: seq<Snapshot>, outcome: Outcome)

  /** The session from cursor `index` on, with the accepted answers still to come. */
  function Run(issues: seq<AnnIssue>, index: nat, acts: seq<Action>): SessionResult
    decreases |acts|
  {
    if index >= |issues| then SessionResult(issues, 0, [Snapshot(issues, 0)], Finished)
    else if |acts| == 0 then SessionResult(issues, index, [], Aborted)
    else if acts[0] == Quit then SessionResult(issues, index, [Snapshot(issues, index)], Quitted)
    else
      var next := issues[index := Apply(issues[index], acts[0])];
      Prepend([Snapshot(next, index + 1)], Run(next, index + 1, acts[1..]))
  }

  /** A session preceded by saves already written. */
  function Prepend(saves: seq<Snapshot>, r: SessionResult): SessionResult {
    r.(saves := saves + r.saves)
  }

  lemma PrependTwice(saves: seq<Snapshot>, save: Snapshot, r: SessionResult)
    ensures Prepend(saves, Prepend([save], r)) == Prepend(saves + [save], r)
  {
    assert saves + ([save] + r.saves) == (saves + [save]) + r.saves;
  }

  /** The session over raw answers. */
  function Annotate(data: Snapshot, answers: seq<string>): SessionResult {
    Run(data.issues, data.progress, ValidActions(answers))
  }

  /** One `a`, `d` or `s` answer at an index inside the list: the issue is updated, the next
      cursor saved, and the session goes on at the next index. */
  lemma RunStep(issues: seq<AnnIssue>, index: nat, action: Action, later: seq<Action>)
    requires index < |issues| && action != Quit
    ensures var next := issues[index := Apply(issues[index], action)];
      Run(issues, index, [action] + later) == Prepend([Snapshot(next, index + 1)], Run(next, index + 1, later))
  {
    assert ([action] + later)[1..] == later;
  }

  /** The prompt with a fixed set of choices: answers outside it are asked again; `None`
      when the input runs out first. */
  method Prompt(answers: seq<string>, pos: nat) returns (action: Option<Action>, next: nat)
    requires pos <= |answers|
    ensures pos <= next <= |answers|
    ensures action.None? ==> ValidActions(answers[pos..]) == []
    ensures action.Some? ==> ValidActions(answers[pos..]) == [action.value] + ValidActions(answers[next..])
  {
    next := pos;
    while next < |answers| && ParseAction(answers[next]).None?
      invariant pos <= next <= |answers|
      invariant ValidActions(answers[next..]) == ValidActions(answers[pos..])
    {
      assert answers[next..][1..] == answers[next + 1..];
      next := next + 1;
    }
    if next == |answers| {
      assert answers[next..] == [];
      return None, next;
    }
    action := ParseAction(answers[next]);
    assert answers[next..][1..] == answers[next + 1..];
    next := next + 1;
  }

  /** The loaded data, updated in place as the session goes. */
  class AnnotationData {
    var issues: seq<AnnIssue>
    var progress: nat

    constructor (data: Snapshot)
      ensures issues == data.issues && progress == data.progress
    {
      issues := data.issues;
      progress := data.progress;
    }

    /** `annotate_issues`: one prompt per index from the loaded cursor on, a save after every
        accepted answer, a reset of the cursor once the list is done. */
    method AnnotateIssues(answers: seq<string>) returns (saves: seq<Snapshot>, outcome: Outcome)
      modifies this
      ensures SessionResult(issues, progress, saves, outcome) == Annotate(old(Snapshot(issues, progress)), answers)
    {
      ghost var goal := Annotate(Snapshot(issues, progress), answers);
      var index := progress;
      var pos := 0;
      saves := [];
      while index < |issues|
        invariant 0 <= pos <= |answers| && progress == index
        invariant goal == Prepend(saves, Run(issues, index, ValidActions(answers[pos..])))
        decreases |issues| - index
      {
        var action, next := Prompt(answers, pos);
        if action.None? {
          outcome := Aborted;
          return;
        }
        ghost var later := ValidActions(answers[next..]);
        pos := next;
        if action.value == Quit {
          progress := index;
          saves := saves + [Snapshot(issues, progress)];
          outcome := Quitted;
          return;
        }
        ghost var updated := issues[index := Apply(issues[index], action.value)];
        RunStep(issues, index, action.value, later);
        if action.value != Skip {
          issues := issues[index := issues[index].(authorAnnotation := Some(UserAnnotation(action.value == Agree)))];
        }
        assert issues == updated;
        PrependTwice(saves, Snapshot(issues, index + 1), Run(issues, index + 1, later));
        progress := index + 1;
        saves := saves + [Snapshot(issues, progress)];
        index := index + 1;
      }
      progress := 0;
      saves := saves + [Snapshot(issues, progress)];
      outcome := Finished;
    }
  }


  // ---------------------------------------------------------------------------
  // Properties of a session
  // ---------------------------------------------------------------------------

  /** The steps a session takes before its last save: one per `a`, `d` or `s` answer. */
  function Steps(r: SessionResult): int {
    if r.outcome == Aborted then |r.saves| else |r.saves| - 1
  }

  /** The number of issues, their order, numbers and titles never change, in the result and in
      every save; issues before the cursor are never touched. */
  lemma {:induction false} RunKeepsIssues(issues: seq<AnnIssue>, index: nat, acts: seq<Action>)
    ensures var r := Run(issues, index, acts);
      && |r.issues| == |issues|
      && (forall i :: 0 <= i < |issues| ==> r.issues[i].number == issues[i].number && r.issues[i].title == issues[i].title)
      && (forall i :: 0 <= i < index && i < |issues| ==> r.issues[i] == issues[i])
      && (forall k, i :: 0 <= k < |r.saves| && 0 <= i < |issues| ==>
            |r.saves[k].issues| == |issues|
            && r.saves[k].issues[i].number == issues[i].number
            && r.saves[k].issues[i].title == issues[i].title)
    decreases |acts|
  {
    if index < |issues| && |acts| > 0 && acts[0] != Quit {
      var next := issues[index := Apply(issues[index], acts[0])];
      RunKeepsIssues(next, index + 1, acts[1..]);
    }
  }

  /** Saved cursors: after the j-th step the saved cursor is the next index, so each prompt
      after the first finds the cursor of its own index saved. A quit saves the current index
      and a finished list saves 0; an abort adds no save. */
  lemma {:induction false} RunSavesCursor(issues: seq<AnnIssue>, index: nat, acts: seq<Action>)
    ensures var r := Run(issues, index, acts);
      && 0 <= Steps(r) <= |acts|
      && (forall k :: 0 <= k < Steps(r) ==> r.saves[k].progress == index + k + 1)
      && (r.outcome == Quitted ==>
            && index + Steps(r) < |issues| && r.progress == index + Steps(r) && Steps(r) < |acts|
            && r.saves[|r.saves| - 1] == Snapshot(r.issues, r.progress)
            && acts[Steps(r)] == Quit)
      && (r.outcome == Finished ==> r.progress == 0 && r.saves[|r.saves| - 1] == Snapshot(r.issues, 0))
      && (r.outcome == Aborted ==> r.progress == index + Steps(r) && index + Steps(r) < |issues| && Steps(r) == |acts|)
      && (forall j :: 0 <= j < Steps(r) ==> acts[j] != Quit)
    decreases |acts|
  {
    if index < |issues| && |acts| > 0 && acts[0] != Quit {
      var next := issues[index := Apply(issues[index], acts[0])];
      RunSavesCursor(next, index + 1, acts[1..]);
    }
  }

  /** Unfolding one `a`, `d` or `s` answer: one more step, and the rest of the session. */
  lemma StepOfRun(issues: seq<AnnIssue>, index: nat, acts: seq<Action>)
    requires index < |issues| && |acts| > 0 && acts[0] != Quit
    ensures var next := issues[index := Apply(issues[index], acts[0])];
      var inner := Run(next, index + 1, acts[1..]);
      && Run(issues, index, acts) == Prepend([Snapshot(next, index + 1)], inner)
      && Steps(Run(issues, index, acts)) == Steps(inner) + 1
  {
  }

  /** Each issue from the cursor on answers to one accepted answer: `a` and `d` set its
      annotation, `s` leaves it; issues the session never reached are unchanged. */
  lemma {:induction false} RunAnnotations(issues: seq<AnnIssue>, index: nat, acts: seq<Action>)
    ensures var r := Run(issues, index, acts);
      && 0 <= Steps(r) <= |acts| && |r.issues| == |issues|
      && (forall i :: index <= i < |issues| && i - index < Steps(r) ==> r.issues[i] == Apply(issues[i], acts[i - index]))
      && (forall i :: index <= i < |issues| && i - index >= Steps(r) ==> r.issues[i] == issues[i])
    decreases |acts|
  {
    if index < |issues| && |acts| > 0 && acts[0] != Quit {
      var next := issues[index := Apply(issues[index], acts[0])];
      var inner := Run(next, index + 1, acts[1..]);
      StepOfRun(issues, index, acts);
      RunAnnotations(next, index + 1, acts[1..]);
      RunKeepsIssues(next, index + 1, acts[1..]);
      assert inner.issues[index] == next[index];
      forall i | index < i < |issues| && i - index < Steps(inner) + 1
        ensures inner.issues[i] == Apply(issues[i], acts[i - index])
      {
        assert acts[1..][i - (index + 1)] == acts[i - index];
      }
    }
  }

  /** Resume: quitting and then running again from the saved data with the remaining answers
      ends exactly as one uninterrupted session, and the saves are the same but for the
      quit's own. */
  lemma {:induction false} QuitThenResume(issues: seq<AnnIssue>, index: nat, before: seq<Action>, rest: seq<Action>)
    requires Quit !in before
    requires Run(issues, index, before + [Quit]).outcome == Quitted
    ensures var first := Run(issues, index, before + [Quit]);
      var second := Run(first.issues, first.progress, rest);
      var whole := Run(issues, index, before + rest);
      && second.issues == whole.issues && second.progress == whole.progress && second.outcome == whole.outcome
      && first.saves[..|first.saves| - 1] + second.saves == whole.saves
    decreases |before|
  {
    if |before| == 0 {
      assert before + [Quit] == [Quit];
      assert before + rest == rest;
    } else {
      assert (before + [Quit])[0] == before[0] && (before + [Quit])[1..] == before[1..] + [Quit];
      assert (before + rest)[0] == before[0] && (before + rest)[1..] == before[1..] + rest;
      var next := issues[index := Apply(issues[index], before[0])];
      if index < |issues| {
        QuitThenResume(next, index + 1, before[1..], rest);
        var inner := Run(next, index + 1, before[1..] + [Quit]);
        var first := Run(issues, index, before + [Quit]);
        assert first.saves == [Snapshot(next, index + 1)] + inner.saves;
        assert first.saves[..|first.saves| - 1] == [Snapshot(next, index + 1)] + inner.saves[..|inner.saves| - 1];
      }
    }
  }

  /** The resumed session starts from the file the quit wrote. */
  lemma ResumeFromSavedFile(issues: seq<AnnIssue>, index: nat, before: seq<Action>)
    requires Run(issues, index, before + [Quit]).outcome == Quitted
    ensures var first := Run(issues, index, before + [Quit]);
      LoadJson(SaveJson(first.saves[|first.saves| - 1])) == Success(Snapshot(first.issues, first.progress))
  {
    RunSavesCursor(issues, index, before + [Quit]);
  }
}
