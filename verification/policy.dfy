/** The duplicate-issue policy of the action (src/index.ts): when an issue is
    opened, look up the author's other open issues and, if there are any,
    label the new issue, optionally comment on it with references to the
    earlier ones, and optionally close it.

    The tracker is not called here. What the tracker returns (the
    collaborator logins, the author's open issues) comes in as parameters,
    and what the action asks the tracker to do comes out as a sequence of
    `Action`s, in the order the action awaits them. */
module Policy {
  import opened Wrappers
  import opened JsString
  import opened Seqs
  import opened Links

  type IssueNumber = nat

  /** A user account name, compared by exact string equality. */
  type Login = string

  /** An open issue as the issue listing returns it: its number and the
      logins of its assignees. */
  datatype Issue = Issue(number: IssueNumber, assignees: seq<Login>)

  /** The action inputs as read from the workflow; an input that was not set
      reads as "". */
  datatype Inputs = Inputs(
    token: string,
    labelInput: string,   // the "label" input
    assign: string,
    issueNumber: string,
    comment: string,
    close: string,
    ignoreUsers: string,
    ignoreCollaborators: string)

  /** The typed configuration of one run. */
  datatype Config = Config(
    labels: seq<string>,
    assign: bool,
    issueNumber: bool,
    comment: string,
    close: bool,
    ignoreUsers: seq<Login>,
    ignoreCollaborators: bool)

  /** A write the action makes to the tracker. */
  datatype Action =
    | AddLabel(issue: IssueNumber, name: string)
    | AddComment(issue: IssueNumber, body: string)
    | CloseIssue(issue: IssueNumber)

  /** A read the action makes from the tracker. */
  datatype Query = ListCollaborators | ListOpenIssues(creator: Login)

  /** Where a run stopped. */
  datatype Status =
    | MissingToken          // failed: no token
    | IgnoredUser           // the author is on the ignore list
    | IgnoredCollaborator   // the author is an exempt collaborator
    | NoOpenIssues          // the (narrowed) issue list is empty
    | NoDuplicates          // the only listed issue is the triggering one
    | Handled               // the plan was issued

  /** What a run does: where it stopped, what it read, what it wrote. */
  datatype Outcome = Outcome(status: Status, queries: seq<Query>, actions: seq<Action>)

  // ---------------------------------------------------------------------
  // Inputs

  /** A comma-separated input: split on "," and trim each piece. */
  function ParseList(s: string): (r: seq<string>)
    ensures |r| == Count(s, ',') + 1
    ensures forall k :: 0 <= k < |r| ==> ',' !in r[k] && IsTrimmed(r[k])
  {
    var pieces := Split(s, ',');
    seq(|pieces|, k requires 0 <= k < |pieces| => Trim(pieces[k]))
  }

  /** The list parser never yields an empty list, not even for "". */
  lemma ParseListNonEmpty(s: string)
    ensures |ParseList(s)| >= 1
    ensures ParseList("") == [""]
  {
  }

  /** Reading back a comma-joined list gives each entry trimmed, in order. */
  lemma ParseListJoin(entries: seq<string>)
    requires |entries| >= 1
    requires forall k :: 0 <= k < |entries| ==> ',' !in entries[k]
    ensures ParseList(Join(entries, ",")) == seq(|entries|, k requires 0 <= k < |entries| => Trim(entries[k]))
  {
    SplitJoin(entries, ',');
  }

  /** A single entry with no comma and no surrounding whitespace reads back
      as itself. */
  lemma ParseListOne(entry: string)
    requires ',' !in entry && IsTrimmed(entry)
    ensures ParseList(entry) == [entry]
  {
    assert Split(entry, ',') == [entry] by {
      SplitJoin([entry], ',');
    }
    assert Trim(entry) == entry by {
      assert [] + entry + [] == entry;
      TrimUnique([], entry, []);
    }
  }

  /** The configuration the inputs describe. A boolean input is on exactly
      when it reads "true"; any other text, "True" or "yes" for instance, is
      off. */
  function Configure(inputs: Inputs): (cfg: Config)
    ensures cfg.labels == ParseList(inputs.labelInput) && |cfg.labels| >= 1
    ensures cfg.ignoreUsers == ParseList(inputs.ignoreUsers) && |cfg.ignoreUsers| >= 1
    ensures cfg.comment == inputs.comment
    ensures cfg.assign <==> inputs.assign == "true"
    ensures cfg.issueNumber <==> inputs.issueNumber == "true"
    ensures cfg.close <==> inputs.close == "true"
    ensures cfg.ignoreCollaborators <==> inputs.ignoreCollaborators == "true"
  {
    Config(
      ParseList(inputs.labelInput),
      inputs.assign == "true",
      inputs.issueNumber == "true",
      inputs.comment,
      inputs.close == "true",
      ParseList(inputs.ignoreUsers),
      inputs.ignoreCollaborators == "true")
  }

  // ---------------------------------------------------------------------
  // Eligibility

  /** The run goes past its gates: a token is present, the author is not on
      the ignore list and, when collaborators are exempt, not one of them. */
  predicate Eligible(token: string, author: Login, cfg: Config, collaborators: seq<Login>): (ok: bool)
    ensures ok ==> token != "" && author !in cfg.ignoreUsers
    ensures !cfg.ignoreCollaborators ==> (ok <==> token != "" && author !in cfg.ignoreUsers)
    ensures cfg.ignoreCollaborators && author in collaborators ==> !ok
    ensures cfg.ignoreCollaborators && author !in collaborators ==> (ok <==> token != "" && author !in cfg.ignoreUsers)
  {
    && token != ""
    && author !in cfg.ignoreUsers
    && !(cfg.ignoreCollaborators && author in collaborators)
  }

  // ---------------------------------------------------------------------
  // Duplicate set

  /** The issue has `author` among its assignees. */
  predicate AssignedTo(author: Login, issue: Issue) {
    author in issue.assignees
  }

  /** The listed issues, narrowed to those assigned to the author when
      `assign` is on. */
  function Narrow(author: Login, issues: seq<Issue>, assign: bool): (r: seq<Issue>)
    ensures |r| <= |issues|
    ensures !assign ==> r == issues
    ensures forall i :: 0 <= i < |r| ==> (assign ==> AssignedTo(author, r[i]))
  {
    if assign then Filter(issue => AssignedTo(author, issue), issues) else issues
  }

  /** Narrowing keeps exactly the listed issues that are assigned to the
      author (all of them when `assign` is off). */
  lemma NarrowMembers(author: Login, issues: seq<Issue>, assign: bool)
    ensures forall i :: 0 <= i < |Narrow(author, issues, assign)| ==> Narrow(author, issues, assign)[i] in issues
    ensures forall i :: 0 <= i < |issues| && (assign ==> AssignedTo(author, issues[i]))
              ==> issues[i] in Narrow(author, issues, assign)
  {
    FilterMembers(issue => AssignedTo(author, issue), issues);
  }

  /** Narrowing a concatenated listing narrows each part. */
  lemma NarrowConcat(author: Login, a: seq<Issue>, b: seq<Issue>, assign: bool)
    ensures Narrow(author, a + b, assign) == Narrow(author, a, assign) + Narrow(author, b, assign)
  {
    if assign {
      FilterConcat(issue => AssignedTo(author, issue), a, b);
    }
  }

  function Numbers(issues: seq<Issue>): (ns: seq<IssueNumber>)
    ensures |ns| == |issues|
    ensures forall i :: 0 <= i < |issues| ==> ns[i] == issues[i].number
  {
    seq(|issues|, i requires 0 <= i < |issues| => issues[i].number)
  }

  lemma NumbersConcat(a: seq<Issue>, b: seq<Issue>)
    ensures Numbers(a + b) == Numbers(a) + Numbers(b)
  {
  }

  /** `issue` counts as an earlier report: it is not the triggering issue
      and, when `assign` is on, it is assigned to the author. */
  predicate IsDuplicate(trigger: IssueNumber, author: Login, assign: bool, issue: Issue) {
    issue.number != trigger && (assign ==> AssignedTo(author, issue))
  }

  /** The issue numbers `trigger` is a duplicate of: the author's listed
      issues, narrowed by `assign`, without the triggering issue, in listing
      order. */
  function DuplicateSet(trigger: IssueNumber, author: Login, issues: seq<Issue>, assign: bool): (dups: seq<IssueNumber>)
    ensures trigger !in dups
    ensures |dups| <= |issues|
  {
    Filter(n => n != trigger, Numbers(Narrow(author, issues, assign)))
  }

  /** Exactly the numbers of the qualifying issues are in the duplicate set. */
  lemma DuplicateSetMembers(trigger: IssueNumber, author: Login, issues: seq<Issue>, assign: bool)
    ensures forall i :: 0 <= i < |issues| && IsDuplicate(trigger, author, assign, issues[i])
              ==> issues[i].number in DuplicateSet(trigger, author, issues, assign)
    ensures forall n :: n in DuplicateSet(trigger, author, issues, assign)
              ==> exists i :: 0 <= i < |issues| && issues[i].number == n && IsDuplicate(trigger, author, assign, issues[i])
  {
    var kept := Narrow(author, issues, assign);
    var dups := DuplicateSet(trigger, author, issues, assign);
    NarrowMembers(author, issues, assign);
    FilterMembers(n => n != trigger, Numbers(kept));
    forall i | 0 <= i < |issues| && IsDuplicate(trigger, author, assign, issues[i])
      ensures issues[i].number in dups
    {
      var j :| 0 <= j < |kept| && kept[j] == issues[i];
      assert Numbers(kept)[j] == issues[i].number;
    }
    forall n | n in dups
      ensures exists i :: 0 <= i < |issues| && issues[i].number == n && IsDuplicate(trigger, author, assign, issues[i])
    {
      var j :| 0 <= j < |kept| && kept[j].number == n;
      var i :| 0 <= i < |issues| && issues[i] == kept[j];
      assert IsDuplicate(trigger, author, assign, issues[i]);
    }
  }

  /** The duplicate set keeps listing order: it distributes over
      concatenation of the listing ... */
  lemma DuplicateSetConcat(trigger: IssueNumber, author: Login, a: seq<Issue>, b: seq<Issue>, assign: bool)
    ensures DuplicateSet(trigger, author, a + b, assign)
            == DuplicateSet(trigger, author, a, assign) + DuplicateSet(trigger, author, b, assign)
  {
    NarrowConcat(author, a, b, assign);
    NumbersConcat(Narrow(author, a, assign), Narrow(author, b, assign));
    FilterConcat(n => n != trigger, Numbers(Narrow(author, a, assign)), Numbers(Narrow(author, b, assign)));
  }

  /** ... and holds the number of a one-issue listing exactly when that issue
      qualifies. */
  lemma DuplicateSetSingle(trigger: IssueNumber, author: Login, issue: Issue, assign: bool)
    ensures DuplicateSet(trigger, author, [issue], assign)
            == if IsDuplicate(trigger, author, assign, issue) then [issue.number] else []
  {
  }

  // ---------------------------------------------------------------------
  // Comment

  /** The comment input has nothing in it but whitespace. */
  predicate IsBlank(comment: string): (blank: bool)
    ensures blank <==> AllWhitespace(comment)
  {
    TrimEmptyIff(comment);
    Trim(comment) == ""
  }

  const OpenedSentence: string := " is already opened by you."
  const AssignedSentence: string := " has been opened by you" + " and is also assigned to you."

  /** The comment posted on the triggering issue, given the rendered
      reference list of the duplicates. With `issueNumber` on it always
      exists and starts with the references; with it off it exists only for a
      non-blank comment input, which is then posted as given. */
  function CommentBody(cfg: Config, links: string): (body: Option<string>)
    ensures body.Some? <==> cfg.issueNumber || !IsBlank(cfg.comment)
    ensures cfg.issueNumber ==> links <= body.value
    ensures !cfg.issueNumber && body.Some? ==> body.value == cfg.comment
    ensures cfg.issueNumber && !IsBlank(cfg.comment) ==> body.value[|links|..] == " " + cfg.comment
    ensures cfg.issueNumber && IsBlank(cfg.comment) ==>
              body.value[|links|..] == if cfg.assign then AssignedSentence else OpenedSentence
  {
    if cfg.issueNumber then
      var tail := if !IsBlank(cfg.comment) then " " + cfg.comment
                  else if cfg.assign then AssignedSentence else OpenedSentence;
      assert (links + tail)[|links|..] == tail;
      Some(links + tail)
    else if !IsBlank(cfg.comment) then Some(cfg.comment)
    else None
  }

  // ---------------------------------------------------------------------
  // Plan

  predicate IsLabel(a: Action) { a.AddLabel? }
  predicate IsComment(a: Action) { a.AddComment? }
  predicate IsClose(a: Action) { a.CloseIssue? }

  /** Position of an action kind in a plan: labels, then comment, then close. */
  function Phase(a: Action): nat {
    match a
    case AddLabel(_, _) => 0
    case AddComment(_, _) => 1
    case CloseIssue(_) => 2
  }

  /** Labels come before the comment, and the comment before the close. */
  predicate PhaseOrdered(plan: seq<Action>) {
    forall i, j :: 0 <= i < j < |plan| ==> Phase(plan[i]) <= Phase(plan[j])
  }

  /** One label action per configured label, in configured order. */
  function LabelActions(trigger: IssueNumber, labels: seq<string>): (acts: seq<Action>)
    ensures |acts| == |labels|
    ensures forall k :: 0 <= k < |acts| ==> acts[k] == AddLabel(trigger, labels[k])
  {
    seq(|labels|, k requires 0 <= k < |labels| => AddLabel(trigger, labels[k]))
  }

  /** The writes for a non-empty duplicate set `dups` of issue `trigger`. */
  function Plan(trigger: IssueNumber, dups: seq<IssueNumber>, cfg: Config): (plan: seq<Action>)
    ensures dups == [] ==> plan == []
    ensures dups != [] && cfg.labels != [] ==> plan != []
    ensures forall k :: 0 <= k < |plan| ==> plan[k].issue == trigger
    ensures PhaseOrdered(plan)
    ensures dups != [] ==>
      |cfg.labels| <= |plan| && forall k :: 0 <= k < |cfg.labels| ==> plan[k] == AddLabel(trigger, cfg.labels[k])
    ensures dups != [] && cfg.close ==> |plan| >= 1 && plan[|plan| - 1] == CloseIssue(trigger)
    ensures !cfg.close ==> forall k :: 0 <= k < |plan| ==> !IsClose(plan[k])
  {
    if dups == [] then []
    else
      var labels := LabelActions(trigger, cfg.labels);
      var comments := CommentActions(trigger, CommentBody(cfg, IssueLinks(dups)));
      var closes := CloseActions(trigger, cfg.close);
      Layout(trigger, labels, comments, closes);
      labels + comments + closes
  }

  /** Labels, then comments, then closes, all for one issue: phase-ordered,
      labels in front, close (if any) last. */
  lemma Layout(trigger: IssueNumber, labels: seq<Action>, comments: seq<Action>, closes: seq<Action>)
    requires forall k :: 0 <= k < |labels| ==> IsLabel(labels[k]) && labels[k].issue == trigger
    requires forall k :: 0 <= k < |comments| ==> IsComment(comments[k]) && comments[k].issue == trigger
    requires forall k :: 0 <= k < |closes| ==> IsClose(closes[k]) && closes[k].issue == trigger
    ensures PhaseOrdered(labels + comments + closes)
    ensures forall k :: 0 <= k < |labels + comments + closes| ==> (labels + comments + closes)[k].issue == trigger
    ensures forall k :: 0 <= k < |labels| ==> (labels + comments + closes)[k] == labels[k]
    ensures |closes| == 1 ==> (labels + comments + closes)[|labels| + |comments|] == closes[0]
    ensures closes == [] ==> forall k :: 0 <= k < |labels + comments + closes| ==> !IsClose((labels + comments + closes)[k])
  {
    var plan := labels + comments + closes;
    forall k | 0 <= k < |plan|
      ensures plan[k].issue == trigger
      ensures Phase(plan[k]) == if k < |labels| then 0 else if k < |labels| + |comments| then 1 else 2
    {
      if k < |labels| {
        assert plan[k] == labels[k];
      } else if k < |labels| + |comments| {
        assert plan[k] == comments[k - |labels|];
      } else {
        assert plan[k] == closes[k - |labels| - |comments|];
      }
    }
  }

  /** One action in front of a plan that already splits, and that is no
      later in phase than any of it, still splits. */
  lemma ConsSplits(first: Action, rest: seq<Action>)
    requires rest == Filter(IsLabel, rest) + Filter(IsComment, rest) + Filter(IsClose, rest)
    requires forall i :: 0 <= i < |rest| ==> Phase(first) <= Phase(rest[i])
    ensures [first] + rest
            == Filter(IsLabel, [first] + rest) + Filter(IsComment, [first] + rest) + Filter(IsClose, [first] + rest)
  {
    var labels, comments, closes := Filter(IsLabel, rest), Filter(IsComment, rest), Filter(IsClose, rest);
    FilterCons(IsLabel, first, rest);
    FilterCons(IsComment, first, rest);
    FilterCons(IsClose, first, rest);
    Prepend(first, labels, comments, closes);
    if !IsLabel(first) {
      FilterDropsAll(IsLabel, rest);
      if !IsComment(first) {
        FilterDropsAll(IsComment, rest);
      }
    }
  }

  /** An ordered plan is its labels, then its comments, then its closes: the
      three projections determine it. */
  lemma {:induction false} OrderedPlanSplits(plan: seq<Action>)
    requires PhaseOrdered(plan)
    ensures plan == Filter(IsLabel, plan) + Filter(IsComment, plan) + Filter(IsClose, plan)
    decreases |plan|
  {
    if |plan| > 0 {
      var first, rest := plan[0], plan[1..];
      assert rest == Filter(IsLabel, rest) + Filter(IsComment, rest) + Filter(IsClose, rest) by {
        assert PhaseOrdered(rest);
        OrderedPlanSplits(rest);
      }
      assert forall i :: 0 <= i < |rest| ==> Phase(first) <= Phase(rest[i]) by {
        forall i | 0 <= i < |rest| ensures Phase(first) <= Phase(rest[i]) {
          assert rest[i] == plan[i + 1];
        }
      }
      ConsSplits(first, rest);
      assert plan == [first] + rest;
    }
  }

  /** The comment actions of a plan: none, or one carrying the body. */
  function CommentActions(trigger: IssueNumber, body: Option<string>): (acts: seq<Action>)
    ensures |acts| <= 1
    ensures body.Some? <==> |acts| == 1
    ensures body.Some? ==> acts[0] == AddComment(trigger, body.value)
  {
    match body
    case None => []
    case Some(text) => [AddComment(trigger, text)]
  }

  /** The close actions of a plan: none, or one for the triggering issue. */
  function CloseActions(trigger: IssueNumber, close: bool): (acts: seq<Action>)
    ensures |acts| <= 1
    ensures close <==> |acts| == 1
    ensures close ==> acts[0] == CloseIssue(trigger)
  {
    if close then [CloseIssue(trigger)] else []
  }

  /** The plan's labels, comment and close, each on its own. Together with
      `OrderedPlanSplits` these determine the plan. */
  lemma PlanParts(trigger: IssueNumber, dups: seq<IssueNumber>, cfg: Config)
    requires dups != []
    ensures Filter(IsLabel, Plan(trigger, dups, cfg)) == LabelActions(trigger, cfg.labels)
    ensures Filter(IsComment, Plan(trigger, dups, cfg)) == CommentActions(trigger, CommentBody(cfg, IssueLinks(dups)))
    ensures Filter(IsClose, Plan(trigger, dups, cfg)) == CloseActions(trigger, cfg.close)
  {
    var labels := LabelActions(trigger, cfg.labels);
    var comments := CommentActions(trigger, CommentBody(cfg, IssueLinks(dups)));
    var closes := CloseActions(trigger, cfg.close);
    KindsSeparate(labels, comments, closes);
  }

  /** Each projection of labels-then-comments-then-closes is its own part. */
  lemma KindsSeparate(labels: seq<Action>, comments: seq<Action>, closes: seq<Action>)
    requires forall k :: 0 <= k < |labels| ==> IsLabel(labels[k])
    requires forall k :: 0 <= k < |comments| ==> IsComment(comments[k])
    requires forall k :: 0 <= k < |closes| ==> IsClose(closes[k])
    ensures Filter(IsLabel, labels + comments + closes) == labels
    ensures Filter(IsComment, labels + comments + closes) == comments
    ensures Filter(IsClose, labels + comments + closes) == closes
  {
    var plan := labels + comments + closes;
    assert Filter(IsLabel, plan) == labels by {
      FilterParts(IsLabel, labels, comments, closes);
      FilterKeepsAll(IsLabel, labels);
      FilterDropsAll(IsLabel, comments);
      FilterDropsAll(IsLabel, closes);
      OnlyPart(labels, Filter(IsLabel, comments), Filter(IsLabel, closes));
    }
    assert Filter(IsComment, plan) == comments by {
      FilterParts(IsComment, labels, comments, closes);
      FilterDropsAll(IsComment, labels);
      FilterKeepsAll(IsComment, comments);
      FilterDropsAll(IsComment, closes);
      OnlyPart(Filter(IsComment, labels), comments, Filter(IsComment, closes));
    }
    assert Filter(IsClose, plan) == closes by {
      FilterParts(IsClose, labels, comments, closes);
      FilterDropsAll(IsClose, labels);
      FilterDropsAll(IsClose, comments);
      FilterKeepsAll(IsClose, closes);
      OnlyPart(Filter(IsClose, labels), Filter(IsClose, comments), closes);
    }
  }

  /** With `issueNumber` on, the one comment of the plan opens with a
      reference list that reads back as exactly the duplicate set, in order;
      what follows it is the fixed sentence or the comment input. */
  lemma CommentNamesDuplicates(trigger: IssueNumber, dups: seq<IssueNumber>, cfg: Config)
    requires dups != [] && cfg.issueNumber
    ensures var body := CommentBody(cfg, IssueLinks(dups)).value;
            && Filter(IsComment, Plan(trigger, dups, cfg)) == [AddComment(trigger, body)]
            && ParseLinks(body) == Some((dups, body[|IssueLinks(dups)|..]))
  {
    var links := IssueLinks(dups);
    var body := CommentBody(cfg, links).value;
    var tail := body[|links|..];
    assert body == links + tail;
    assert OpenedSentence[0] == ' ' && AssignedSentence[0] == ' ';
    assert tail[0] == ' ';
    ParseIssueLinks(dups, tail);
    PlanParts(trigger, dups, cfg);
  }

  // ---------------------------------------------------------------------
  // The run

  /** One run of the action for the issue `trigger` opened by `author`.
      `collaborators` is what the collaborator listing returns and
      `authorIssues` what the listing of the author's open issues returns;
      the outcome records which of the two reads were made. */
  function HandleMultipleIssues(inputs: Inputs, trigger: IssueNumber, author: Login,
                                collaborators: seq<Login>, authorIssues: seq<Issue>): (o: Outcome)
    ensures inputs.token == "" ==> o == Outcome(MissingToken, [], [])
    ensures (ListCollaborators in o.queries) <==>
              inputs.token != "" && author !in Configure(inputs).ignoreUsers && Configure(inputs).ignoreCollaborators
    ensures (ListOpenIssues(author) in o.queries) <==> Eligible(inputs.token, author, Configure(inputs), collaborators)
    ensures o.status == NoOpenIssues <==>
              Eligible(inputs.token, author, Configure(inputs), collaborators)
              && Narrow(author, authorIssues, Configure(inputs).assign) == []
    ensures o.actions != [] <==>
              && Eligible(inputs.token, author, Configure(inputs), collaborators)
              && DuplicateSet(trigger, author, authorIssues, Configure(inputs).assign) != []
    ensures o.status == Handled <==> o.actions != []
    ensures forall k :: 0 <= k < |o.actions| ==> o.actions[k].issue == trigger
    ensures forall k :: 0 <= k < |o.actions| ==>
              o.actions[k].issue !in DuplicateSet(trigger, author, authorIssues, Configure(inputs).assign)
  {
    if inputs.token == "" then Outcome(MissingToken, [], [])
    else
      var cfg := Configure(inputs);
      if author in cfg.ignoreUsers then Outcome(IgnoredUser, [], [])
      else
        var consulted := if cfg.ignoreCollaborators then [ListCollaborators] else [];
        var exempt := if cfg.ignoreCollaborators then collaborators else [];
        if author in exempt then Outcome(IgnoredCollaborator, consulted, [])
        else
          var queries := consulted + [ListOpenIssues(author)];
          if Narrow(author, authorIssues, cfg.assign) == [] then Outcome(NoOpenIssues, queries, [])
          else
            var dups := DuplicateSet(trigger, author, authorIssues, cfg.assign);
            if dups == [] then Outcome(NoDuplicates, queries, [])
            else Outcome(Handled, queries, Plan(trigger, dups, cfg))
  }

  /** Past the gates, the run issues exactly the plan for the duplicate set. */
  lemma RunIssuesPlan(inputs: Inputs, trigger: IssueNumber, author: Login,
                      collaborators: seq<Login>, authorIssues: seq<Issue>)
    requires Eligible(inputs.token, author, Configure(inputs), collaborators)
    ensures HandleMultipleIssues(inputs, trigger, author, collaborators, authorIssues).actions
            == Plan(trigger, DuplicateSet(trigger, author, authorIssues, Configure(inputs).assign), Configure(inputs))
  {
    var cfg := Configure(inputs);
    if Narrow(author, authorIssues, cfg.assign) == [] {
      assert DuplicateSet(trigger, author, authorIssues, cfg.assign) == [];
    }
  }

  /** A run stops at one of its gates exactly when the author is not
      eligible; it then reads no issues and writes nothing. */
  lemma GatesStop(inputs: Inputs, trigger: IssueNumber, author: Login,
                  collaborators: seq<Login>, authorIssues: seq<Issue>)
    ensures var o := HandleMultipleIssues(inputs, trigger, author, collaborators, authorIssues);
            && (!Eligible(inputs.token, author, Configure(inputs), collaborators)
                <==> o.status in {MissingToken, IgnoredUser, IgnoredCollaborator})
            && (!Eligible(inputs.token, author, Configure(inputs), collaborators)
                ==> o.actions == [] && |o.queries| <= 1)
  {
  }

  /** When collaborators are not exempt, the collaborator list has no
      bearing on the run. */
  lemma CollaboratorsUnused(inputs: Inputs, trigger: IssueNumber, author: Login,
                            c1: seq<Login>, c2: seq<Login>, authorIssues: seq<Issue>)
    requires !Configure(inputs).ignoreCollaborators
    ensures HandleMultipleIssues(inputs, trigger, author, c1, authorIssues)
            == HandleMultipleIssues(inputs, trigger, author, c2, authorIssues)
  {
  }

  // ---------------------------------------------------------------------
  // Worked examples

  /** The default sentence spelled out after two short reference lists. */
  lemma SentenceText(links: string)
    ensures links == "#5" ==> links + OpenedSentence == "#5 is already opened by you."
    ensures links == "#3, #7" ==> links + OpenedSentence == "#3, #7 is already opened by you."
  {
  }

  /** Reference list on, blank comment input, one duplicate #5. */
  lemma DefaultCommentExample(cfg: Config)
    requires cfg.issueNumber && !cfg.assign && cfg.comment == ""
    ensures CommentBody(cfg, IssueLinks([5])) == Some("#5 is already opened by you.")
  {
    IssueLinksOne([5]);
    assert Decimal(5) == "5";
    assert IssueLinks([5]) == "#5";
    assert IsBlank(cfg.comment);
    assert CommentBody(cfg, "#5") == Some("#5" + OpenedSentence);
    SentenceText("#5");
  }

  /** Reference list off: a non-blank comment input is posted verbatim. */
  lemma VerbatimCommentExample(cfg: Config, links: string)
    requires !cfg.issueNumber && cfg.comment == "please merge"
    ensures CommentBody(cfg, links) == Some("please merge")
  {
    var text := "please merge";
    assert !IsWhitespace(text[0]);
    assert !AllWhitespace(text);
    TrimEmptyIff(text);
    assert !IsBlank(cfg.comment);
  }

  /** Reference list off and blank comment input: no comment at all. */
  lemma NoCommentExample(cfg: Config, links: string)
    requires !cfg.issueNumber && cfg.comment == ""
    ensures CommentBody(cfg, links) == None
  {
    assert IsBlank(cfg.comment);
  }

  /** The inputs of the end-to-end example. */
  lemma ExampleConfig()
    ensures Configure(Inputs("token", "dup", "", "true", "", "true", "", ""))
            == Config(["dup"], false, true, "", true, [""], false)
  {
    ParseListOne("dup");
    ParseListNonEmpty("");
  }

  /** The duplicate set of the end-to-end example. */
  lemma ExampleDuplicates()
    ensures DuplicateSet(10, "alice", [Issue(3, []), Issue(7, []), Issue(10, [])], false) == [3, 7]
  {
    var issues := [Issue(3, []), Issue(7, []), Issue(10, [])];
    assert issues == [issues[0]] + [issues[1]] + [issues[2]];
    DuplicateSetConcat(10, "alice", [issues[0]] + [issues[1]], [issues[2]], false);
    DuplicateSetConcat(10, "alice", [issues[0]], [issues[1]], false);
    DuplicateSetSingle(10, "alice", issues[0], false);
    DuplicateSetSingle(10, "alice", issues[1], false);
    DuplicateSetSingle(10, "alice", issues[2], false);
  }

  /** The plan of the end-to-end example. */
  lemma ExamplePlan()
    ensures Plan(10, [3, 7], Config(["dup"], false, true, "", true, [""], false))
            == [AddLabel(10, "dup"), AddComment(10, "#3, #7 is already opened by you."), CloseIssue(10)]
  {
    var cfg := Config(["dup"], false, true, "", true, [""], false);
    assert IssueLinks([3, 7]) == "#3, #7" by {
      IssueLinksCons([3, 7]);
      assert [3, 7][1..] == [7];
      IssueLinksOne([7]);
      assert Decimal(3) == "3" && Decimal(7) == "7";
    }
    assert IsBlank(cfg.comment);
    assert CommentBody(cfg, "#3, #7") == Some("#3, #7" + OpenedSentence);
    SentenceText("#3, #7");
    assert LabelActions(10, ["dup"]) == [AddLabel(10, "dup")];
  }

  /** Issue #10 by alice, who also has #3 and #7 open; one label "dup",
      reference list on, close on. */
  lemma EndToEndExample()
    ensures HandleMultipleIssues(Inputs("token", "dup", "", "true", "", "true", "", ""), 10, "alice", [],
                                 [Issue(3, []), Issue(7, []), Issue(10, [])])
            == Outcome(Handled, [ListOpenIssues("alice")],
                       [AddLabel(10, "dup"), AddComment(10, "#3, #7 is already opened by you."), CloseIssue(10)])
  {
    var inputs := Inputs("token", "dup", "", "true", "", "true", "", "");
    var issues := [Issue(3, []), Issue(7, []), Issue(10, [])];
    var cfg := Config(["dup"], false, true, "", true, [""], false);
    ExampleConfig();
    assert "alice" !in cfg.ignoreUsers;
    assert Narrow("alice", issues, false) != [];
    ExampleDuplicates();
    ExamplePlan();
    assert [] + [ListOpenIssues("alice")] == [ListOpenIssues("alice")];
  }
}
