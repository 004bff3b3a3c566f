/** The reference list the action puts in front of its comment: every
    duplicate rendered as `#<number>`, joined by ", ". `ParseLinks` reads such
    a list back off the front of a text, which is how a reader of the comment
    recovers which issues it names. */
module Links {
  import opened Wrappers
  import opened JsString
  import opened Seqs

  /** `#<n>`, the tracker's cross-reference to issue `n`. */
  function Link(n: nat): (s: string)
    ensures |s| >= 2 && s[0] == '#' && s[1..] == Decimal(n)
  {
    "#" + Decimal(n)
  }

  /** The links to `ns`, in order, separated by ", ". */
  function IssueLinks(ns: seq<nat>): (s: string)
    ensures ns == [] <==> s == []
    ensures |ns| >= 1 ==> Link(ns[0]) <= s
  {
    Join(seq(|ns|, i requires 0 <= i < |ns| => Link(ns[i])), ", ")
  }

  /** The list of a single issue is its link. */
  lemma IssueLinksOne(ns: seq<nat>)
    requires |ns| == 1
    ensures IssueLinks(ns) == Link(ns[0])
  {
  }

  /** How the list grows one issue at a time from the front. */
  lemma IssueLinksCons(ns: seq<nat>)
    requires |ns| >= 2
    ensures IssueLinks(ns) == Link(ns[0]) + ", " + IssueLinks(ns[1..])
  {
    var links := seq(|ns|, i requires 0 <= i < |ns| => Link(ns[i]));
    assert links[1..] == seq(|ns| - 1, i requires 0 <= i < |ns| - 1 => Link(ns[1..][i]));
  }

  /** A non-empty list starts with a reference: `#` and a digit. */
  lemma IssueLinksStart(ns: seq<nat>)
    requires |ns| >= 1
    ensures var s := IssueLinks(ns); |s| >= 2 && s[0] == '#' && IsDigit(s[1])
  {
    var l := Link(ns[0]);
    assert l[1] == Decimal(ns[0])[0];
    if |ns| == 1 {
      IssueLinksOne(ns);
    } else {
      IssueLinksCons(ns);
      assert IssueLinks(ns)[..|l|] == l;
    }
  }

  /** Reads one `#<digits>` reference off the front of `s`: its number and
      the text after its last digit. */
  function ReadLink(s: string): (r: Option<(nat, string)>)
    ensures r.Some? <==> |s| >= 2 && s[0] == '#' && IsDigit(s[1])
    ensures r.Some? ==> |r.value.1| < |s| - 1 && r.value.1 == s[|s| - |r.value.1|..]
    ensures r.Some? ==> r.value.1 == [] || !IsDigit(r.value.1[0])
  {
    if |s| < 2 || s[0] != '#' || !IsDigit(s[1]) then None
    else
      var k := DigitRun(s[1..]);
      assert s[1..1 + k] == s[1..][..k];
      Some((DigitsValue(s[1..1 + k]), s[1 + k..]))
  }

  /** Reading the reference to `n` gives `n` back, and stops where its digits
      stop. */
  lemma ReadLinkOf(n: nat, after: string)
    requires after == [] || !IsDigit(after[0])
    ensures ReadLink(Link(n) + after) == Some((n, after))
  {
    var d := Decimal(n);
    var s := Link(n) + after;
    DecimalRoundTrip(n);
    assert s[0] == '#' && s[1] == d[0];
    assert s[1..] == d + after;
    DigitRunOf(d, after);
    assert s[1..1 + |d|] == d;
    assert s[1 + |d|..] == after;
  }

  /** True when `rest` continues a reference list with `, #<digit>`. */
  predicate Continues(rest: string) {
    |rest| >= 4 && rest[..3] == ", #" && IsDigit(rest[3])
  }

  /** Reads a reference list off the front of `s`: a first `#<digits>`, then
      further `, #<digits>` items as long as they follow. Returns the numbers
      read and the text after the last one; `None` when `s` does not start
      with a reference. */
  function ParseLinks(s: string): (r: Option<(seq<nat>, string)>)
    ensures r.Some? <==> |s| >= 2 && s[0] == '#' && IsDigit(s[1])
    ensures r.Some? ==> |r.value.0| >= 1 && |r.value.1| < |s| && r.value.1 == s[|s| - |r.value.1|..]
    decreases |s|
  {
    match ReadLink(s)
    case None => None
    case Some((n, rest)) =>
      if Continues(rest) then
        var more := ParseLinks(rest[2..]);
        Some(([n] + more.value.0, more.value.1))
      else Some(([n], rest))
  }

  /** The parser reads a rendered link and stops when no further item
      follows it. */
  lemma {:induction false} ParseLinkStops(s: string, n: nat, after: string)
    requires after == [] || !IsDigit(after[0])
    requires !Continues(after)
    requires s == Link(n) + after
    ensures ParseLinks(s) == Some(([n], after))
  {
    ReadLinkOf(n, after);
  }

  /** The parser reads a rendered link and carries on with the list that
      follows it. */
  lemma {:induction false} ParseLinkContinues(s: string, n: nat, after: string, ns: seq<nat>, t: string)
    requires Continues(after)
    requires ParseLinks(after[2..]) == Some((ns, t))
    requires s == Link(n) + after
    ensures ParseLinks(s) == Some(([n] + ns, t))
  {
    ReadLinkOf(n, after);
  }

  /** ", " in front of a list that starts with a reference continues it. */
  lemma ContinuesBefore(u: string, t: string)
    requires |u| >= 2 && u[0] == '#' && IsDigit(u[1])
    ensures Continues(", " + (u + t)) && (", " + (u + t))[2..] == u + t
  {
    var after := ", " + (u + t);
    assert after[..3] == ", " + u[..1];
  }

  /** One step of the parser: a link in front of a list that already reads
      back. */
  lemma {:induction false} ParseLinkThenList(s: string, n: nat, u: string, t: string, ns: seq<nat>)
    requires |u| >= 2 && u[0] == '#' && IsDigit(u[1])
    requires ParseLinks(u + t) == Some((ns, t))
    requires s == Link(n) + ", " + u + t
    ensures ParseLinks(s) == Some(([n] + ns, t))
  {
    var after := ", " + (u + t);
    ContinuesBefore(u, t);
    Regroup(Link(n), ", ", u, t);
    ParseLinkContinues(s, n, after, ns, t);
  }

  /** The base case of `ParseIssueLinks`: a single link. */
  lemma {:induction false} ParseOneLink(ns: seq<nat>, t: string)
    requires |ns| == 1
    requires t == [] || (t[0] != ',' && !IsDigit(t[0]))
    ensures ParseLinks(IssueLinks(ns) + t) == Some((ns, t))
  {
    IssueLinksOne(ns);
    assert !Continues(t) by {
      if |t| >= 3 {
        assert t[..3][0] == t[0];
      }
    }
    assert [ns[0]] == ns;
    ParseLinkStops(IssueLinks(ns) + t, ns[0], t);
  }

  /** Parsing inverts rendering: the reference list of a non-empty `ns`,
      followed by any text that does not continue it, reads back as `ns` and
      that text. */
  lemma {:induction false} ParseIssueLinks(ns: seq<nat>, t: string)
    requires |ns| >= 1
    requires t == [] || (t[0] != ',' && !IsDigit(t[0]))
    ensures ParseLinks(IssueLinks(ns) + t) == Some((ns, t))
    decreases |ns|
  {
    if |ns| == 1 {
      ParseOneLink(ns, t);
    } else {
      ParseIssueLinks(ns[1..], t);
      ParseIssueLinksStep(ns, t);
    }
  }

  /** The inductive step of `ParseIssueLinks`: one more link in front. */
  lemma {:induction false} ParseIssueLinksStep(ns: seq<nat>, t: string)
    requires |ns| >= 2
    requires ParseLinks(IssueLinks(ns[1..]) + t) == Some((ns[1..], t))
    ensures ParseLinks(IssueLinks(ns) + t) == Some((ns, t))
  {
    var tail := IssueLinks(ns[1..]);
    assert IssueLinks(ns) + t == Link(ns[0]) + ", " + tail + t by {
      IssueLinksCons(ns);
    }
    assert |tail| >= 2 && tail[0] == '#' && IsDigit(tail[1]) by {
      IssueLinksStart(ns[1..]);
    }
    HeadTail(ns);
    ParseLinkThenList(IssueLinks(ns) + t, ns[0], tail, t, ns[1..]);
  }

  /** A non-empty reference list names its numbers unambiguously. */
  lemma IssueLinksInjective(a: seq<nat>, b: seq<nat>)
    requires IssueLinks(a) == IssueLinks(b)
    ensures a == b
  {
    if |a| >= 1 && |b| >= 1 {
      assert IssueLinks(a) + "" == IssueLinks(a);
      assert IssueLinks(b) + "" == IssueLinks(b);
      ParseIssueLinks(a, "");
      ParseIssueLinks(b, "");
    }
  }

  /** The numbers 3, 7 and 12 render as "#3, #7, #12". */
  lemma IssueLinksExample()
    ensures IssueLinks([3, 7, 12]) == "#3, #7, #12"
  {
    IssueLinksCons([3, 7, 12]);
    assert [3, 7, 12][1..] == [7, 12];
    IssueLinksCons([7, 12]);
    assert [7, 12][1..] == [12];
    IssueLinksOne([12]);
    assert Decimal(12) == "12";
  }
}
