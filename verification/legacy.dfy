/** The first version of the action (index.ts): list the author's open
    issues and close every one of them except the triggering issue. It adds
    no labels and no comment, and it has no ignore list or collaborator
    exemption; the token it reads is only handed to the client library. */
module Legacy {
  import opened Seqs
  import opened Links
  import opened Policy

  /** One close per number, in order. */
  function Closes(ns: seq<IssueNumber>): (acts: seq<Action>)
    ensures |acts| == |ns|
    ensures forall k :: 0 <= k < |ns| ==> acts[k] == CloseIssue(ns[k])
  {
    seq(|ns|, k requires 0 <= k < |ns| => CloseIssue(ns[k]))
  }

  /** The loop over the listed issues: each one whose number differs from
      the triggering issue's is closed, in listing order. Its closes are
      exactly the duplicate set the later version computes with `assign`
      off. */
  method LegacyRun(trigger: IssueNumber, author: Login, authorIssues: seq<Issue>) returns (actions: seq<Action>)
    ensures |actions| == |DuplicateSet(trigger, author, authorIssues, false)|
    ensures forall k :: 0 <= k < |actions| ==>
              actions[k] == CloseIssue(DuplicateSet(trigger, author, authorIssues, false)[k])
    ensures forall k :: 0 <= k < |actions| ==> IsClose(actions[k]) && actions[k].issue != trigger
    ensures forall i :: 0 <= i < |authorIssues| && authorIssues[i].number != trigger ==>
              CloseIssue(authorIssues[i].number) in actions
    ensures actions == [] <==> forall i :: 0 <= i < |authorIssues| ==> authorIssues[i].number == trigger
  {
    actions := [];
    var i := 0;
    while i < |authorIssues|
      invariant 0 <= i <= |authorIssues|
      invariant actions == Closes(DuplicateSet(trigger, author, authorIssues[..i], false))
    {
      var issue := authorIssues[i];
      var before := DuplicateSet(trigger, author, authorIssues[..i], false);
      if issue.number != trigger {
        actions := actions + [CloseIssue(issue.number)];
      }
      assert authorIssues[..i + 1] == authorIssues[..i] + [issue];
      DuplicateSetConcat(trigger, author, authorIssues[..i], [issue], false);
      DuplicateSetSingle(trigger, author, issue, false);
      assert Closes(before + [issue.number]) == Closes(before) + [CloseIssue(issue.number)];
      assert before + [] == before;
      i := i + 1;
    }
    assert authorIssues[..i] == authorIssues;
    var dups := DuplicateSet(trigger, author, authorIssues, false);
    DuplicateSetMembers(trigger, author, authorIssues, false);
    forall j | 0 <= j < |authorIssues| && authorIssues[j].number != trigger
      ensures CloseIssue(authorIssues[j].number) in actions
    {
      assert IsDuplicate(trigger, author, false, authorIssues[j]);
      var k :| 0 <= k < |dups| && dups[k] == authorIssues[j].number;
      assert actions[k] == CloseIssue(authorIssues[j].number);
    }
    if actions != [] {
      assert dups[0] in dups;
    }
  }

  /** The two versions side by side, for an eligible author with duplicates
      and `assign` off: the later version closes at most the triggering
      issue, which the earlier one never closes, and the earlier version's
      targets are exactly the issues the later one's reference list names. */
  lemma VersionsCompared(inputs: Inputs, trigger: IssueNumber, author: Login,
                         collaborators: seq<Login>, authorIssues: seq<Issue>)
    requires Eligible(inputs.token, author, Configure(inputs), collaborators)
    requires !Configure(inputs).assign
    requires DuplicateSet(trigger, author, authorIssues, false) != []
    ensures var cfg := Configure(inputs);
            var later := HandleMultipleIssues(inputs, trigger, author, collaborators, authorIssues).actions;
            var targets := DuplicateSet(trigger, author, authorIssues, false);
            && Filter(IsClose, later) == (if cfg.close then [CloseIssue(trigger)] else [])
            && trigger !in targets
            && (cfg.issueNumber ==>
                  exists body :: Filter(IsComment, later) == [AddComment(trigger, body)]
                                 && ParseLinks(body).Some? && ParseLinks(body).value.0 == targets)
  {
    var cfg := Configure(inputs);
    var dups := DuplicateSet(trigger, author, authorIssues, false);
    RunIssuesPlan(inputs, trigger, author, collaborators, authorIssues);
    PlanParts(trigger, dups, cfg);
    if cfg.issueNumber {
      CommentNamesDuplicates(trigger, dups, cfg);
      var body := CommentBody(cfg, IssueLinks(dups)).value;
      assert Filter(IsComment, Plan(trigger, dups, cfg)) == [AddComment(trigger, body)];
    }
  }
}
