/**
 * One plugin's pass over the host's repositories: each repository in turn
 * gets the plugin's decision; an error ends the pass and reaches the host,
 * and headers already set on earlier repositories stay set.
 */
module Plugin {
  import opened Tokens

  /** A repository as the host lists it, under its name. */
  datatype Entry = Entry(name: string, repo: Repo)

  /** A header list installed on the named repository. */
  datatype Applied = Applied(name: string, headers: seq<string>)

  /** How a pass ended, with the header lists it installed. */
  datatype Run =
    | Completed(applied: seq<Applied>)
    | Aborted(applied: seq<Applied>, cause: Outcome)

  /** No repository before position `i` made the plugin fail. */
  ghost predicate NoFailureBefore(entries: seq<Entry>, decide: Repo -> Outcome, i: int)
    requires i <= |entries|
  {
    forall j :: 0 <= j < i ==> !decide(entries[j].repo).IsError()
  }

  /** The repository at position `k` is the first one that made the plugin fail. */
  ghost predicate FirstFailure(entries: seq<Entry>, decide: Repo -> Outcome, k: int)
  {
    0 <= k < |entries| && decide(entries[k].repo).IsError() && NoFailureBefore(entries, decide, k)
  }

  /** Past a first repository that does not fail, the repositories before `i + 1` are the rest's before `i`. */
  lemma NoFailureShift(entries: seq<Entry>, decide: Repo -> Outcome)
    requires |entries| > 0 && !decide(entries[0].repo).IsError()
    ensures forall i :: 0 <= i < |entries| ==>
              (NoFailureBefore(entries, decide, i + 1) <==> NoFailureBefore(entries[1..], decide, i))
  {
    forall i | 0 <= i < |entries|
      ensures NoFailureBefore(entries, decide, i + 1) <==> NoFailureBefore(entries[1..], decide, i)
    {
      assert forall j :: 0 <= j < i ==> entries[1..][j] == entries[j + 1];
    }
  }

  /** Runs `decide` over `entries` in order, stopping at the first error. */
  function RunAll(entries: seq<Entry>, decide: Repo -> Outcome): (r: Run)
    ensures r.Completed? <==> NoFailureBefore(entries, decide, |entries|)
    ensures r.Aborted? ==> exists k :: FirstFailure(entries, decide, k) && r.cause == decide(entries[k].repo)
    ensures forall a :: a in r.applied ==>
              exists i :: 0 <= i < |entries| && NoFailureBefore(entries, decide, i)
                          && entries[i].name == a.name && decide(entries[i].repo) == SetHeaders(a.headers)
    ensures forall i :: 0 <= i < |entries| && NoFailureBefore(entries, decide, i) && decide(entries[i].repo).SetHeaders?
              ==> Applied(entries[i].name, decide(entries[i].repo).headers) in r.applied
    decreases |entries|
  {
    if |entries| == 0 then Completed([])
    else
      var head := entries[0];
      match decide(head.repo)
      case NoOp =>
        NoFailureShift(entries, decide);
        RunAll(entries[1..], decide)
      case SetHeaders(hs) =>
        NoFailureShift(entries, decide);
        var rest := RunAll(entries[1..], decide);
        var applied := [Applied(head.name, hs)] + rest.applied;
        if rest.Completed? then Completed(applied) else Aborted(applied, rest.cause)
      case _ =>
        Aborted([], decide(head.repo))
  }

  /** A pass in which the plugin leaves every repository alone completes and installs nothing. */
  lemma AllNoOp(entries: seq<Entry>, decide: Repo -> Outcome)
    requires forall i :: 0 <= i < |entries| ==> decide(entries[i].repo).NoOp?
    ensures RunAll(entries, decide) == Completed([])
  {
    var r := RunAll(entries, decide);
    if |r.applied| > 0 {
      assert r.applied[0] in r.applied;
    }
  }
}
