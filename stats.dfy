/**
 * Replies of the time-tracking service's statistics endpoint and what the
 * program extracts from them: the seconds of one project (`get_project`),
 * the ranked project list (`parse_projects`) and the error a failed reply
 * becomes in the interactive query path (`query_projects`).
 */
module Stats {
  import opened Wrappers
  import opened Json

  /** An HTTP exchange as the program sees it: a transport error, or a status with its canonical reason phrase and the body decoded as JSON when it decodes. */
  datatype Reply =
    | Transport(message: string)
    | Response(status: int, reason: Option<string>, body: Option<Json>)

  predicate IsSuccess(status: int) {
    200 <= status <= 299
  }

  // ---------------------------------------------------------------- get_project

  /** `i.get("name")?.as_str()`. */
  function NameOf(item: Json): Option<string> {
    match Get(item, "name")
    case None => None
    case Some(n) => AsStr(n)
  }

  /** `i.get("total_seconds")?.as_i64()`. */
  function TotalOf(item: Json): Option<int> {
    match Get(item, "total_seconds")
    case None => None
    case Some(t) => AsI64(t)
  }

  /** The scan of `get_project` over the project list: stop at the first entry without a string name, or at the first entry named `project`. */
  function Lookup(items: seq<Json>, project: string): (r: Option<int>)
    ensures r.Some? ==> I64_MIN <= r.value <= I64_MAX
    decreases |items|
  {
    if items == [] then None
    else match NameOf(items[0])
      case None => None
      case Some(name) => if name == project then TotalOf(items[0]) else Lookup(items[1..], project)
  }

  /** Seconds found are the total of an entry of the list that has the project's name. */
  lemma {:induction false} LookupNamed(items: seq<Json>, project: string)
    requires Lookup(items, project).Some?
    ensures exists k :: 0 <= k < |items| && NameOf(items[k]) == Some(project) && TotalOf(items[k]) == Lookup(items, project)
    decreases |items|
  {
    if NameOf(items[0]) != Some(project) {
      var rest := items[1..];
      LookupNamed(rest, project);
      var k :| 0 <= k < |rest| && NameOf(rest[k]) == Some(project) && TotalOf(rest[k]) == Lookup(rest, project);
      assert rest[k] == items[k + 1];
    }
  }

  /** What `get_project(data, project)` returns. */
  function ProjectSeconds(data: Json, project: string): (r: Option<int>)
    ensures ProjectList(data).None? ==> r.None?
    ensures r.Some? ==> I64_MIN <= r.value <= I64_MAX
  {
    match ProjectList(data)
    case None => None
    case Some(items) => Lookup(items, project)
  }

  /** Seconds found are the total of an entry of the reply's list that has the project's name. */
  lemma ProjectSecondsFromList(data: Json, project: string)
    requires ProjectSeconds(data, project).Some?
    ensures ProjectList(data).Some?
    ensures exists k :: 0 <= k < |ProjectList(data).value| && NameOf(ProjectList(data).value[k]) == Some(project)
                        && TotalOf(ProjectList(data).value[k]) == ProjectSeconds(data, project)
  {
    LookupNamed(ProjectList(data).value, project);
  }

  /** Every entry before `k` has a string name other than `project`. */
  predicate NamedOtherBefore(items: seq<Json>, project: string, k: nat)
    requires k <= |items|
  {
    forall j :: 0 <= j < k ==> NameOf(items[j]).Some? && NameOf(items[j]).value != project
  }

  /** The first entry named exactly `project` decides the result: its total, when that is a 64-bit integer. */
  lemma {:induction false} LookupFound(items: seq<Json>, project: string, k: nat)
    requires k < |items| && NamedOtherBefore(items, project, k)
    requires NameOf(items[k]) == Some(project)
    ensures Lookup(items, project) == TotalOf(items[k])
    decreases k
  {
    if k > 0 {
      LookupFound(items[1..], project, k - 1);
    }
  }

  /** An entry without a string name, reached before any match, makes the whole lookup fail. */
  lemma {:induction false} LookupBadName(items: seq<Json>, project: string, k: nat)
    requires k < |items| && NamedOtherBefore(items, project, k)
    requires NameOf(items[k]).None?
    ensures Lookup(items, project).None?
    decreases k
  {
    if k > 0 {
      LookupBadName(items[1..], project, k - 1);
    }
  }

  /** A list in which no entry is named `project` gives nothing. */
  lemma {:induction false} LookupMissing(items: seq<Json>, project: string)
    requires NamedOtherBefore(items, project, |items|)
    ensures Lookup(items, project).None?
    decreases |items|
  {
    if items != [] {
      LookupMissing(items[1..], project);
    }
  }

  /** `get_project`: a loop over the project list with early returns. */
  method GetProject(data: Json, project: string) returns (r: Option<int>)
    ensures r == ProjectSeconds(data, project)
  {
    var list := ProjectList(data);
    if list.None? {
      return None;
    }
    var items := list.value;
    var i := 0;
    while i < |items|
      invariant 0 <= i <= |items|
      invariant Lookup(items[i..], project) == Lookup(items, project)
    {
      assert items[i..][1..] == items[i + 1..];
      var name := NameOf(items[i]);
      if name.None? {
        return None;
      }
      if name.value == project {
        return TotalOf(items[i]);
      }
      i := i + 1;
    }
    r := None;
  }

  // ------------------------------------------------------------- parse_projects

  /** The tuple `parse_projects` collects per entry: `name`, `text` and `total_seconds`. */
  datatype Entry = Entry(name: string, text: string, total: int)

  /** The record handed to the page: the project's name and its tracked time as text. */
  datatype Project = Project(name: string, time: string)

  /** One entry of `parse_projects`: a string `name`, a string `text` and an i64 `total_seconds`, or nothing. */
  function EntryOf(item: Json): (r: Option<Entry>)
    ensures r.Some? <==> NameOf(item).Some? && Get(item, "text").Some? && Get(item, "text").value.Str?
                         && TotalOf(item).Some?
    ensures r.Some? ==> r.value == Entry(NameOf(item).value, Get(item, "text").value.s, TotalOf(item).value)
  {
    match NameOf(item)
    case None => None
    case Some(name) =>
      match Get(item, "text")
      case None => None
      case Some(t) =>
        match AsStr(t)
        case None => None
        case Some(text) =>
          match TotalOf(item)
          case None => None
          case Some(total) => Some(Entry(name, text, total))
  }

  /** The entries of a list in which every entry is well formed; nothing as soon as one is not. */
  function ParseAll(items: seq<Json>): (r: Option<seq<Entry>>)
    ensures r.None? <==> exists k :: 0 <= k < |items| && EntryOf(items[k]).None?
    ensures r.Some? ==> |r.value| == |items|
    ensures r.Some? ==> forall k :: 0 <= k < |items| ==> EntryOf(items[k]) == Some(r.value[k])
    decreases |items|
  {
    if items == [] then Some([])
    else
      var init := items[..|items| - 1];
      var last := items[|items| - 1];
      assert forall k :: 0 <= k < |init| ==> init[k] == items[k];
      match ParseAll(init)
      case None => None
      case Some(es) =>
        match EntryOf(last)
        case None => None
        case Some(e) => Some(es + [e])
  }

  /** The entries `parse_projects` accepts from a reply body, or nothing. */
  function ParsedEntries(data: Json): Option<seq<Entry>> {
    match ProjectList(data)
    case None => None
    case Some(items) => ParseAll(items)
  }

  ghost predicate Ascending(s: seq<Entry>) {
    forall k, l :: 0 <= k < l < |s| ==> s[k].total <= s[l].total
  }

  ghost predicate NonIncreasing(s: seq<Entry>) {
    forall k, l :: 0 <= k < l < |s| ==> s[k].total >= s[l].total
  }

  function ToProject(e: Entry): Project {
    Project(e.name, e.text)
  }

  function ProjectsOf(s: seq<Entry>): (ps: seq<Project>)
    ensures |ps| == |s|
    ensures forall k :: 0 <= k < |s| ==> ps[k] == ToProject(s[k])
  {
    seq(|s|, k requires 0 <= k < |s| => ToProject(s[k]))
  }

  function Reverse(s: seq<Entry>): (r: seq<Entry>)
    ensures |r| == |s|
    ensures forall k :: 0 <= k < |s| ==> r[k] == s[|s| - 1 - k]
  {
    seq(|s|, k requires 0 <= k < |s| => s[|s| - 1 - k])
  }

  /** `ps` lists one project per entry of `es`, ordered by tracked seconds, largest first. */
  ghost predicate RankedFrom(ps: seq<Project>, es: seq<Entry>) {
    exists s :: multiset(s) == multiset(es) && NonIncreasing(s) && ps == ProjectsOf(s)
  }

  lemma {:induction false} ReverseMultiset(s: seq<Entry>)
    ensures multiset(Reverse(s)) == multiset(s)
    decreases |s|
  {
    if s != [] {
      var init := s[..|s| - 1];
      ReverseMultiset(init);
      assert Reverse(s) == [s[|s| - 1]] + Reverse(init);
      assert s == init + [s[|s| - 1]];
    }
  }

  /** The first `n` entries are in order of total, smallest first. */
  ghost predicate AscendingTo(s: seq<Entry>, n: nat)
    requires n <= |s|
  {
    forall k, l :: 0 <= k < l < n ==> s[k].total <= s[l].total
  }

  method Swap(a: array<Entry>, i: nat, j: nat)
    requires i < j < a.Length
    modifies a
    ensures a[i] == old(a[j]) && a[j] == old(a[i])
    ensures forall k :: 0 <= k < a.Length && k != i && k != j ==> a[k] == old(a[k])
    ensures multiset(a[..]) == old(multiset(a[..]))
  {
    a[i], a[j] := a[j], a[i];
  }

  /** One pass of insertion: move `a[i]` left past every larger total, extending the ordered prefix by one. */
  method Insert(a: array<Entry>, i: nat)
    requires i < a.Length && AscendingTo(a[..], i)
    modifies a
    ensures AscendingTo(a[..], i + 1)
    ensures multiset(a[..]) == old(multiset(a[..]))
  {
    var j := i;
    while j > 0 && a[j - 1].total > a[j].total
      invariant 0 <= j <= i
      invariant forall k, l :: 0 <= k < l <= i && k != j && l != j ==> a[k].total <= a[l].total
      invariant forall l :: j < l <= i ==> a[j].total <= a[l].total
      invariant multiset(a[..]) == old(multiset(a[..]))
    {
      Swap(a, j - 1, j);
      j := j - 1;
    }
  }

  /** `out.sort_by(|a, b| a.2.cmp(&b.2))`: the entries in place, by total, smallest first. */
  method SortByTotal(a: array<Entry>)
    modifies a
    ensures Ascending(a[..])
    ensures multiset(a[..]) == old(multiset(a[..]))
  {
    var i := 0;
    while i < a.Length
      invariant 0 <= i <= a.Length
      invariant AscendingTo(a[..], i)
      invariant multiset(a[..]) == old(multiset(a[..]))
    {
      Insert(a, i);
      i := i + 1;
    }
  }

  /** `parse_projects`: validate and collect every entry, sort by total, reverse, keep name and text. */
  method ParseProjects(data: Json) returns (r: Option<seq<Project>>)
    ensures r.None? <==> ParsedEntries(data).None?
    ensures r.Some? ==> RankedFrom(r.value, ParsedEntries(data).value)
  {
    var list := ProjectList(data);
    if list.None? {
      return None;
    }
    var entries := CollectEntries(list.value);
    if entries.None? {
      return None;
    }
    var ranked := RankEntries(entries.value);
    r := Some(ranked);
  }

  /** The validating loop of `parse_projects`: the first malformed entry makes it fail. */
  method CollectEntries(items: seq<Json>) returns (r: Option<seq<Entry>>)
    ensures r == ParseAll(items)
  {
    var out: seq<Entry> := [];
    var i := 0;
    while i < |items|
      invariant 0 <= i <= |items|
      invariant ParseAll(items[..i]) == Some(out)
    {
      assert items[..i + 1][..i] == items[..i];
      var e := EntryOf(items[i]);
      if e.None? {
        // so the prefix, and hence the whole list, does not parse
        assert EntryOf(items[..i + 1][i]).None?;
        assert items[i] == items[..][i];
        return None;
      }
      out := out + [e.value];
      i := i + 1;
    }
    assert items[..i] == items;
    r := Some(out);
  }

  /** The ranking of `parse_projects`: sort by total in place, reverse, keep name and text. */
  method RankEntries(entries: seq<Entry>) returns (ps: seq<Project>)
    ensures RankedFrom(ps, entries)
  {
    var a := new Entry[|entries|](k requires 0 <= k < |entries| => entries[k]);
    assert a[..] == entries;
    SortByTotal(a);
    var sorted := a[..];
    var ranked := Reverse(sorted);
    ReverseMultiset(sorted);
    assert NonIncreasing(ranked);
    ps := ProjectsOf(ranked);
  }

  // ------------------------------------------------------------- query_projects

  /** The error of a non-success reply: 404 is an unknown user; any other failure status gives its reason phrase. */
  function StatusError(status: int, reason: Option<string>): (r: Option<string>)
    ensures r.None? <==> IsSuccess(status)
    ensures status == 404 ==> r == Some("Username not found")
    ensures status != 404 && !IsSuccess(status) && reason.Some? ==> r == reason
    ensures status != 404 && !IsSuccess(status) && reason.None? ==> r == Some("Unknown error")
  {
    if status == 404 then Some("Username not found")
    else if !IsSuccess(status) then Some(reason.GetOr("Unknown error"))
    else None
  }

  /** The error message `query_projects` returns for a reply, checked in the order `query_projects` checks them; nothing when the list parses. */
  function ReplyError(reply: Reply): (r: Option<string>)
    ensures reply.Transport? ==> r == Some(reply.message)
    ensures reply.Response? && !IsSuccess(reply.status) ==> r == StatusError(reply.status, reply.reason)
    ensures r.None? <==> reply.Response? && IsSuccess(reply.status) && reply.body.Some?
                         && ParsedEntries(reply.body.value).Some?
  {
    match reply
    case Transport(message) => Some(message)
    case Response(status, reason, body) =>
      if StatusError(status, reason).Some? then StatusError(status, reason)
      else if body.None? then Some("Failed to deserialize response data")
      else if ParsedEntries(body.value).None? then Some("Failed to parse response data")
      else None
  }

  /** `query_projects` after the request: the reply's error, or the ranked project list. */
  method QueryProjects(reply: Reply) returns (r: Result<seq<Project>>)
    ensures r.Failure? <==> ReplyError(reply).Some?
    ensures r.Failure? ==> r.error == ReplyError(reply).value
    ensures r.Success? ==> RankedFrom(r.value, ParsedEntries(reply.body.value).value)
  {
    match reply
    case Transport(message) =>
      r := Failure(message);
    case Response(status, reason, body) =>
      var err := StatusError(status, reason);
      if err.Some? {
        return Failure(err.value);
      }
      if body.None? {
        return Failure("Failed to deserialize response data");
      }
      var projects := ParseProjects(body.value);
      if projects.None? {
        return Failure("Failed to parse response data");
      }
      r := Success(projects.value);
  }

  /** Each failure of a reply, by kind, as the message the page shows. */
  lemma ReplyErrorCases(reply: Reply)
    ensures reply.Response? && reply.status == 404 ==> ReplyError(reply) == Some("Username not found")
    ensures reply.Response? && reply.status != 404 && !IsSuccess(reply.status) ==>
      ReplyError(reply) == Some(reply.reason.GetOr("Unknown error"))
    ensures reply.Response? && IsSuccess(reply.status) && reply.body.None? ==>
      ReplyError(reply) == Some("Failed to deserialize response data")
    ensures reply.Response? && IsSuccess(reply.status) && reply.body.Some? && ParsedEntries(reply.body.value).None? ==>
      ReplyError(reply) == Some("Failed to parse response data")
  {
  }
}
