/** What one notification is fanned out into (notify/dispatcher.go, processJob): the ordered list
    of inline inserts and goroutine launches, and the delivery rows it stands for. */
module FanOut {
  import opened Common

  datatype Channel = Sms | Voice | Email | Unknown(name: string)

  datatype Member = Member(username: string, mobile: Option<string>, work: Option<string>, email: Option<string>)

  datatype Destination = Destination(channel: Channel, target: string)

  /** Which providers are configured. */
  datatype Providers = Providers(sms: bool, voice: bool, email: bool)

  /** Whom a delivery row is for: a member of a group, or a direct destination. */
  datatype Target =
    | ToMember(group: string, username: string, channel: Channel)
    | ToDestination(target: string, channel: Channel)

  /** How a launched goroutine behaves: retry loop, single e-mail attempt, "not_subscribed" row,
      or no row at all because its provider (or channel) does not exist. */
  datatype Kind = Retrying | Mailing | Unregistered | NoProvider

  datatype Task = Task(kind: Kind, target: Target)

  /** One effect of the worker's own loop. */
  datatype Item =
    | Withhold(target: Target)
    | Launch(task: Task)

  /** The answers the database gives while the job runs, one per query made: the member list of
      the i-th listed group (None when the query fails), the subscription of its j-th member, and
      the registration of the i-th destination's phone. They are arbitrary, so tables may change
      while the job runs. */
  datatype Answers = Answers(
    list: nat -> Option<seq<Member>>,
    subscribed: (nat, nat) -> bool,
    registered: nat -> bool)

  predicate HasText(s: Option<string>) {
    s.Some? && s.value != ""
  }

  function SmsItems(channels: seq<Channel>, p: Providers, group: string, m: Member, subscribed: bool): seq<Item> {
    if Sms in channels && p.sms && HasText(m.mobile) then
      [if subscribed then Launch(Task(Retrying, ToMember(group, m.username, Sms)))
       else Withhold(ToMember(group, m.username, Sms))]
    else []
  }

  function VoiceItems(channels: seq<Channel>, p: Providers, group: string, m: Member): seq<Item> {
    if Voice in channels && p.voice && (HasText(m.mobile) || HasText(m.work)) then
      [Launch(Task(Retrying, ToMember(group, m.username, Voice)))]
    else []
  }

  function EmailItems(channels: seq<Channel>, p: Providers, group: string, m: Member): seq<Item> {
    if Email in channels && p.email && HasText(m.email) then
      [Launch(Task(Mailing, ToMember(group, m.username, Email)))]
    else []
  }

  function MemberItems(channels: seq<Channel>, p: Providers, group: string, m: Member, subscribed: bool): seq<Item> {
    SmsItems(channels, p, group, m, subscribed) + VoiceItems(channels, p, group, m) + EmailItems(channels, p, group, m)
  }

  function DestinationItem(p: Providers, d: Destination, registered: bool): Item {
    var kind := match d.channel
      case Sms => if !p.sms then NoProvider else if registered then Retrying else Unregistered
      case Voice => if p.voice then Retrying else NoProvider
      case Email => if p.email then Mailing else NoProvider
      case Unknown(_) => NoProvider;
    Launch(Task(kind, ToDestination(d.target, d.channel)))
  }

  /** The concatenation of a sequence of lists. */
  function Flatten<T>(parts: seq<seq<T>>): seq<T> {
    if parts == [] then [] else Flatten(parts[..|parts| - 1]) + parts[|parts| - 1]
  }

  /** The items of each member of the i-th listed group. */
  function MemberParts(channels: seq<Channel>, p: Providers, a: Answers, i: nat, group: string,
                       members: seq<Member>): (parts: seq<seq<Item>>)
    ensures |parts| == |members|
  {
    seq(|members|, j requires 0 <= j < |members| => MemberItems(channels, p, group, members[j], a.subscribed(i, j)))
  }

  /** The items of one listed group; a group whose query failed is skipped. */
  function ListedItems(channels: seq<Channel>, p: Providers, a: Answers, i: nat, group: string): seq<Item> {
    if a.list(i).None? then [] else Flatten(MemberParts(channels, p, a, i, group, a.list(i).value))
  }

  function GroupParts(groups: seq<string>, channels: seq<Channel>, p: Providers, a: Answers): (parts: seq<seq<Item>>)
    ensures |parts| == |groups|
  {
    seq(|groups|, i requires 0 <= i < |groups| => ListedItems(channels, p, a, i, groups[i]))
  }

  function DestinationItems(destinations: seq<Destination>, p: Providers, a: Answers): (items: seq<Item>)
    ensures |items| == |destinations|
  {
    seq(|destinations|, i requires 0 <= i < |destinations| => DestinationItem(p, destinations[i], a.registered(i)))
  }

  /** Members listed, counted once per time their group is listed. */
  function MemberTotal(a: Answers, upto: nat): nat {
    if upto == 0 then 0
    else MemberTotal(a, upto - 1) + ListingSize(a, upto - 1)
  }

  /** The members one listing query returned. */
  function ListingSize(a: Answers, i: nat): nat {
    match a.list(i)
    case None => 0
    case Some(members) => |members|
  }

  /** The j-th member of the i-th listed group. */
  predicate MemberAt(groups: seq<string>, a: Answers, i: nat, j: nat) {
    i < |groups| && a.list(i).Some? && j < |a.list(i).value|
  }

  /** Every member of every listing, by position. */
  ghost function ListedMembers(groups: seq<string>, a: Answers): set<(nat, nat)> {
    ListedUpTo(a, |groups|)
  }

  ghost function ListedUpTo(a: Answers, n: nat): set<(nat, nat)> {
    set i: nat, j: nat | i < n && j < ListingSize(a, i) :: (i, j)
  }

  lemma ListedNext(a: Answers, n: nat)
    ensures |ListedUpTo(a, n + 1)| == |ListedUpTo(a, n)| + ListingSize(a, n)
  {
    PairsAtCount(n, ListingSize(a, n));
    DisjointSize(ListedUpTo(a, n), PairsAt(n, ListingSize(a, n)), ListedUpTo(a, n + 1));
  }

  /** The running total counts every listed member once. */
  lemma {:induction false} MemberTotalCounts(a: Answers, n: nat)
    ensures MemberTotal(a, n) == |ListedUpTo(a, n)|
  {
    if n > 0 {
      MemberTotalCounts(a, n - 1);
      ListedNext(a, n - 1);
    }
  }

  /** They are the pairs of a listing that was answered and a position in its answer. */
  lemma ListedMembersAt(groups: seq<string>, a: Answers, i: nat, j: nat)
    ensures (i, j) in ListedMembers(groups, a) <==> MemberAt(groups, a, i, j)
  {
  }

  /** The sequential plan of a job. */
  function Items(groups: seq<string>, channels: seq<Channel>, destinations: seq<Destination>,
                 p: Providers, a: Answers): seq<Item> {
    Flatten(GroupParts(groups, channels, p, a)) + DestinationItems(destinations, p, a)
  }

  lemma FlattenNext<T>(parts: seq<seq<T>>, n: nat)
    requires n < |parts|
    ensures Flatten(parts[..n + 1]) == Flatten(parts[..n]) + parts[n]
  {
    assert parts[..n + 1][..n] == parts[..n];
  }

  /** The body of processJob's member loop. */
  method FanOutMember(channelSet: map<Channel, bool>, ghost channels: seq<Channel>, p: Providers, group: string,
                      m: Member, subscribed: bool)
    returns (items: seq<Item>)
    requires forall c :: c in channelSet <==> c in channels
    ensures items == MemberItems(channels, p, group, m, subscribed)
  {
    items := [];
    if Sms in channelSet && p.sms && m.mobile.Some? && m.mobile.value != "" {
      if subscribed {
        items := items + [Launch(Task(Retrying, ToMember(group, m.username, Sms)))];
      } else {
        items := items + [Withhold(ToMember(group, m.username, Sms))];
      }
    }
    assert items == SmsItems(channels, p, group, m, subscribed);
    if Voice in channelSet && p.voice
       && ((m.mobile.Some? && m.mobile.value != "") || (m.work.Some? && m.work.value != "")) {
      items := items + [Launch(Task(Retrying, ToMember(group, m.username, Voice)))];
    }
    assert items == SmsItems(channels, p, group, m, subscribed) + VoiceItems(channels, p, group, m);
    if Email in channelSet && p.email && m.email.Some? && m.email.value != "" {
      items := items + [Launch(Task(Mailing, ToMember(group, m.username, Email)))];
    }
  }

  /** processJob's loop over the members of one listed group. */
  method FanOutGroup(channelSet: map<Channel, bool>, ghost channels: seq<Channel>, p: Providers, a: Answers, i: nat,
                     group: string, members: seq<Member>)
    returns (items: seq<Item>)
    requires forall c :: c in channelSet <==> c in channels
    ensures items == Flatten(MemberParts(channels, p, a, i, group, members))
  {
    items := [];
    ghost var parts := MemberParts(channels, p, a, i, group, members);
    for j := 0 to |members|
      invariant items == Flatten(parts[..j])
    {
      var emitted := FanOutMember(channelSet, channels, p, group, members[j], a.subscribed(i, j));
      FlattenNext(parts, j);
      items := items + emitted;
    }
    assert parts[..|members|] == parts;
  }

  /** processJob's first loop: the requested channels as the keys of a map. */
  method ChannelSet(channels: seq<Channel>) returns (channelSet: map<Channel, bool>)
    ensures forall c :: c in channelSet <==> c in channels
  {
    channelSet := map[];
    for k := 0 to |channels|
      invariant forall c :: c in channelSet <==> c in channels[..k]
    {
      channelSet := channelSet[channels[k] := true];
    }
    assert channels[..|channels|] == channels;
  }

  /** The fan-out loops of processJob, emitting launches and inline inserts one after the other. */
  method FanOutJob(groups: seq<string>, channels: seq<Channel>, destinations: seq<Destination>,
                   p: Providers, a: Answers)
    returns (items: seq<Item>, totalTargets: nat)
    ensures items == Items(groups, channels, destinations, p, a)
    ensures totalTargets == MemberTotal(a, |groups|) + |destinations| == |ListedMembers(groups, a)| + |destinations|
  {
    var channelSet := ChannelSet(channels);
    items := [];
    var totalMembers := 0;
    ghost var parts := GroupParts(groups, channels, p, a);
    for i := 0 to |groups|
      invariant items == Flatten(parts[..i])
      invariant totalMembers == MemberTotal(a, i)
    {
      FlattenNext(parts, i);
      var answer := a.list(i);
      if answer.None? {
        assert items + [] == items;
        continue;
      }
      totalMembers := totalMembers + |answer.value|;
      var emitted := FanOutGroup(channelSet, channels, p, a, i, groups[i], answer.value);
      items := items + emitted;
    }
    assert parts[..|groups|] == parts;
    ghost var memberItems := items;
    ghost var rest := DestinationItems(destinations, p, a);
    for i := 0 to |destinations|
      invariant items == memberItems + rest[..i]
    {
      items := items + [DestinationItem(p, destinations[i], a.registered(i))];
      assert rest[..i + 1] == rest[..i] + [rest[i]];
    }
    MemberTotalCounts(a, |groups|);
    totalTargets := totalMembers + |destinations|;
  }

  // ----- The rows a plan stands for -----

  /** How many rows for t a launched task writes when nothing fails. */
  function TaskRows(task: Task, t: Target): nat {
    if task.kind != NoProvider && task.target == t then 1 else 0
  }

  function ItemRows(item: Item, t: Target): nat {
    match item
    case Withhold(target) => if target == t then 1 else 0
    case Launch(task) => TaskRows(task, t)
  }

  /** The multiplicity of t among the rows a list of items stands for. */
  function Planned(items: seq<Item>, t: Target): nat {
    if items == [] then 0 else ItemRows(items[0], t) + Planned(items[1..], t)
  }

  lemma {:induction false} PlannedConcat(xs: seq<Item>, ys: seq<Item>, t: Target)
    ensures Planned(xs + ys, t) == Planned(xs, t) + Planned(ys, t)
  {
    if xs == [] {
      assert xs + ys == ys;
    } else {
      assert (xs + ys)[1..] == xs[1..] + ys;
      PlannedConcat(xs[1..], ys, t);
    }
  }

  function RowCounts(parts: seq<seq<Item>>, t: Target): (counts: seq<nat>)
    ensures |counts| == |parts|
  {
    seq(|parts|, k requires 0 <= k < |parts| => Planned(parts[k], t))
  }

  lemma {:induction false} PlannedFlatten(parts: seq<seq<Item>>, t: Target)
    ensures Planned(Flatten(parts), t) == Sum(RowCounts(parts, t))
  {
    if parts != [] {
      var n := |parts| - 1;
      PlannedFlatten(parts[..n], t);
      PlannedConcat(Flatten(parts[..n]), parts[n], t);
      assert RowCounts(parts, t) == RowCounts(parts[..n], t) + [Planned(parts[n], t)];
      SumAppend(RowCounts(parts[..n], t), Planned(parts[n], t));
    }
  }

  lemma {:induction false} PlannedIsSum(items: seq<Item>, counts: seq<nat>, t: Target)
    requires |counts| == |items| && forall k :: 0 <= k < |items| ==> counts[k] == ItemRows(items[k], t)
    ensures Planned(items, t) == Sum(counts)
  {
    if items != [] {
      PlannedIsSum(items[1..], counts[1..], t);
    }
  }

  lemma {:induction false} SumOfZeros(s: seq<nat>)
    requires forall k :: 0 <= k < |s| ==> s[k] == 0
    ensures Sum(s) == 0
  {
    if s != [] {
      SumOfZeros(s[1..]);
    }
  }

  /** Zeros and at most one 1. */
  lemma {:induction false} SumAtMostOne(s: seq<nat>)
    requires forall k :: 0 <= k < |s| ==> s[k] <= 1
    requires forall j, k :: 0 <= j < k < |s| ==> s[j] == 0 || s[k] == 0
    ensures Sum(s) == if exists k :: 0 <= k < |s| && s[k] == 1 then 1 else 0
  {
    if s != [] {
      if s[0] == 1 {
        SumOfZeros(s[1..]);
      } else {
        SumAtMostOne(s[1..]);
        assert forall k :: 0 < k < |s| ==> s[k] == s[1..][k - 1];
      }
    }
  }

  /** A 1 at every occurrence of x. */
  lemma {:induction false} SumOfMatches<T>(xs: seq<T>, x: T, s: seq<nat>)
    requires |s| == |xs| && forall k :: 0 <= k < |xs| ==> s[k] == if xs[k] == x then 1 else 0
    ensures Sum(s) == multiset(xs)[x]
  {
    if xs != [] {
      SumOfMatches(xs[1..], x, s[1..]);
      assert xs == [xs[0]] + xs[1..];
    }
  }

  // ----- Which channels are listed matters, not their order or repeats -----

  /** The two lists agree on the three channels anything is done for. */
  predicate SameChannels(c1: seq<Channel>, c2: seq<Channel>) {
    (Sms in c1 <==> Sms in c2) && (Voice in c1 <==> Voice in c2) && (Email in c1 <==> Email in c2)
  }

  lemma MemberItemsBySet(c1: seq<Channel>, c2: seq<Channel>, p: Providers, group: string, m: Member, subscribed: bool)
    requires SameChannels(c1, c2)
    ensures MemberItems(c1, p, group, m, subscribed) == MemberItems(c2, p, group, m, subscribed)
  {
  }

  lemma ListedItemsBySet(c1: seq<Channel>, c2: seq<Channel>, p: Providers, a: Answers, i: nat, group: string)
    requires SameChannels(c1, c2)
    ensures ListedItems(c1, p, a, i, group) == ListedItems(c2, p, a, i, group)
  {
    if a.list(i).Some? {
      var members := a.list(i).value;
      forall j | 0 <= j < |members|
        ensures MemberParts(c1, p, a, i, group, members)[j] == MemberParts(c2, p, a, i, group, members)[j]
      {
        MemberItemsBySet(c1, c2, p, group, members[j], a.subscribed(i, j));
      }
      assert MemberParts(c1, p, a, i, group, members) == MemberParts(c2, p, a, i, group, members);
    }
  }

  lemma PlanDependsOnChannelSet(groups: seq<string>, c1: seq<Channel>, c2: seq<Channel>,
                                destinations: seq<Destination>, p: Providers, a: Answers)
    requires (set c | c in c1) == (set c | c in c2)
    ensures Items(groups, c1, destinations, p, a) == Items(groups, c2, destinations, p, a)
  {
    var s1, s2 := set c | c in c1, set c | c in c2;
    assert SameChannels(c1, c2) by {
      assert forall c :: c in c1 <==> c in s1;
      assert forall c :: c in c2 <==> c in s2;
    }
    forall i | 0 <= i < |groups| ensures GroupParts(groups, c1, p, a)[i] == GroupParts(groups, c2, p, a)[i] {
      ListedItemsBySet(c1, c2, p, a, i, groups[i]);
    }
    assert GroupParts(groups, c1, p, a) == GroupParts(groups, c2, p, a);
  }

  // ----- Counting: one row per eligible (group, member, channel) and nothing else -----

  /** Who gets a row: the channel is asked for and configured, and the member has an address for it. */
  predicate Eligible(channels: seq<Channel>, p: Providers, m: Member, c: Channel) {
    && c in channels
    && match c
       case Sms => p.sms && m.mobile != None && m.mobile != Some("")
       case Voice => p.voice && ((m.mobile != None && m.mobile != Some("")) || (m.work != None && m.work != Some("")))
       case Email => p.email && m.email != None && m.email != Some("")
       case Unknown(_) => false
  }

  predicate Deliverable(p: Providers, c: Channel) {
    match c
    case Sms => p.sms
    case Voice => p.voice
    case Email => p.email
    case Unknown(_) => false
  }

  /** The member table does not change while the job runs, no query fails, and (its primary key)
      no username occurs twice within a group. */
  ghost predicate SteadyDirectory(groups: seq<string>, a: Answers, directory: map<string, seq<Member>>) {
    forall i: nat :: i < |groups| ==>
      && groups[i] in directory
      && a.list(i) == Some(directory[groups[i]])
      && UniqueUsernames(directory[groups[i]])
  }

  ghost predicate UniqueUsernames(members: seq<Member>) {
    forall j, k :: 0 <= j < k < |members| ==> members[j].username != members[k].username
  }

  ghost predicate SomeoneEligible(channels: seq<Channel>, p: Providers, members: seq<Member>, username: string, c: Channel) {
    exists j :: 0 <= j < |members| && members[j].username == username && Eligible(channels, p, members[j], c)
  }

  lemma SingletonRows(items: seq<Item>, target: Target, present: bool, t: Target)
    requires if present then |items| == 1 && ItemRows(items[0], t) == (if target == t then 1 else 0) else items == []
    ensures Planned(items, t) == if present && target == t then 1 else 0
  {
    if present {
      assert items[1..] == [];
    }
  }

  /** The rows for t one member stands for. */
  ghost function RowsOfMember(channels: seq<Channel>, p: Providers, group: string, m: Member, t: Target): nat {
    if t.ToMember? && t.group == group && t.username == m.username && Eligible(channels, p, m, t.channel) then 1 else 0
  }

  lemma ChannelRows(channels: seq<Channel>, p: Providers, group: string, m: Member, subscribed: bool, t: Target)
    ensures Planned(SmsItems(channels, p, group, m, subscribed), t)
            == if Eligible(channels, p, m, Sms) && t == ToMember(group, m.username, Sms) then 1 else 0
    ensures Planned(VoiceItems(channels, p, group, m), t)
            == if Eligible(channels, p, m, Voice) && t == ToMember(group, m.username, Voice) then 1 else 0
    ensures Planned(EmailItems(channels, p, group, m), t)
            == if Eligible(channels, p, m, Email) && t == ToMember(group, m.username, Email) then 1 else 0
  {
    SingletonRows(SmsItems(channels, p, group, m, subscribed), ToMember(group, m.username, Sms), Eligible(channels, p, m, Sms), t);
    SingletonRows(VoiceItems(channels, p, group, m), ToMember(group, m.username, Voice), Eligible(channels, p, m, Voice), t);
    SingletonRows(EmailItems(channels, p, group, m), ToMember(group, m.username, Email), Eligible(channels, p, m, Email), t);
  }

  lemma MemberRows(channels: seq<Channel>, p: Providers, group: string, m: Member, subscribed: bool, t: Target)
    ensures Planned(MemberItems(channels, p, group, m, subscribed), t) == RowsOfMember(channels, p, group, m, t)
  {
    var sms, voice, email := SmsItems(channels, p, group, m, subscribed), VoiceItems(channels, p, group, m), EmailItems(channels, p, group, m);
    PlannedConcat(sms + voice, email, t);
    PlannedConcat(sms, voice, t);
    ChannelRows(channels, p, group, m, subscribed, t);
  }

  /** The rows for t a group of these members stands for: one, if someone of that name is eligible. */
  ghost function Share(channels: seq<Channel>, p: Providers, group: string, members: seq<Member>, t: Target): nat {
    if t.ToMember? && t.group == group && SomeoneEligible(channels, p, members, t.username, t.channel) then 1 else 0
  }

  ghost function MemberCounts(channels: seq<Channel>, p: Providers, group: string, members: seq<Member>, t: Target): (counts: seq<nat>)
    ensures |counts| == |members|
  {
    seq(|members|, j requires 0 <= j < |members| => RowsOfMember(channels, p, group, members[j], t))
  }

  /** The rows for t the i-th listing of a group stands for: its eligible members of that name. */
  ghost function ListingRows(channels: seq<Channel>, p: Providers, a: Answers, i: nat, group: string, t: Target): nat {
    if a.list(i).None? then 0 else Sum(MemberCounts(channels, p, group, a.list(i).value, t))
  }

  ghost function ListingCounts(groups: seq<string>, channels: seq<Channel>, p: Providers, a: Answers, t: Target): (counts: seq<nat>)
    ensures |counts| == |groups|
  {
    seq(|groups|, i requires 0 <= i < |groups| => ListingRows(channels, p, a, i, groups[i], t))
  }

  lemma ListedRows(channels: seq<Channel>, p: Providers, a: Answers, i: nat, group: string, t: Target)
    ensures Planned(ListedItems(channels, p, a, i, group), t) == ListingRows(channels, p, a, i, group, t)
  {
    if a.list(i).Some? {
      var members := a.list(i).value;
      var parts := MemberParts(channels, p, a, i, group, members);
      forall j | 0 <= j < |members|
        ensures RowCounts(parts, t)[j] == MemberCounts(channels, p, group, members, t)[j]
      {
        MemberRows(channels, p, group, members[j], a.subscribed(i, j), t);
      }
      PlannedFlatten(parts, t);
      assert RowCounts(parts, t) == MemberCounts(channels, p, group, members, t);
    }
  }

  lemma AllListings(groups: seq<string>, channels: seq<Channel>, p: Providers, a: Answers, t: Target)
    ensures Planned(Flatten(GroupParts(groups, channels, p, a)), t) == Sum(ListingCounts(groups, channels, p, a, t))
  {
    var parts := GroupParts(groups, channels, p, a);
    forall i | 0 <= i < |groups| ensures RowCounts(parts, t)[i] == ListingCounts(groups, channels, p, a, t)[i] {
      ListedRows(channels, p, a, i, groups[i], t);
    }
    PlannedFlatten(parts, t);
    assert RowCounts(parts, t) == ListingCounts(groups, channels, p, a, t);
  }

  lemma MembersShare(channels: seq<Channel>, p: Providers, group: string, members: seq<Member>, t: Target)
    requires UniqueUsernames(members)
    ensures Sum(MemberCounts(channels, p, group, members, t)) == Share(channels, p, group, members, t)
  {
    SumAtMostOne(MemberCounts(channels, p, group, members, t));
    ShareIsExists(channels, p, group, members, MemberCounts(channels, p, group, members, t), t);
  }

  lemma ShareIsExists(channels: seq<Channel>, p: Providers, group: string, members: seq<Member>, counts: seq<nat>, t: Target)
    requires |counts| == |members|
    requires forall j :: 0 <= j < |members| ==> counts[j] == RowsOfMember(channels, p, group, members[j], t)
    ensures Share(channels, p, group, members, t) == if exists j :: 0 <= j < |counts| && counts[j] == 1 then 1 else 0
  {
    if Share(channels, p, group, members, t) == 1 {
      var j :| 0 <= j < |members| && members[j].username == t.username && Eligible(channels, p, members[j], t.channel);
      assert counts[j] == 1;
    }
  }

  lemma SteadyCounts(groups: seq<string>, channels: seq<Channel>, p: Providers, a: Answers,
                     directory: map<string, seq<Member>>, t: Target)
    requires SteadyDirectory(groups, a, directory)
    ensures Sum(ListingCounts(groups, channels, p, a, t))
            == if t.ToMember? && t.group in directory && SomeoneEligible(channels, p, directory[t.group], t.username, t.channel)
               then multiset(groups)[t.group] else 0
  {
    var counts := ListingCounts(groups, channels, p, a, t);
    forall i | 0 <= i < |groups|
      ensures groups[i] in directory && counts[i] == Share(channels, p, groups[i], directory[groups[i]], t)
    {
      MembersShare(channels, p, groups[i], directory[groups[i]], t);
    }
    if t.ToMember? && t.group in directory && SomeoneEligible(channels, p, directory[t.group], t.username, t.channel) {
      SumOfMatches(groups, t.group, counts);
    } else {
      SumOfZeros(counts);
    }
  }

  lemma DestinationItemRows(p: Providers, d: Destination, registered: bool, t: Target)
    ensures ItemRows(DestinationItem(p, d, registered), t)
            == if t.ToDestination? && Deliverable(p, t.channel) && d == Destination(t.channel, t.target) then 1 else 0
  {
  }

  lemma DestinationRows(destinations: seq<Destination>, p: Providers, a: Answers, t: Target)
    ensures Planned(DestinationItems(destinations, p, a), t)
            == if t.ToDestination? && Deliverable(p, t.channel)
               then multiset(destinations)[Destination(t.channel, t.target)] else 0
  {
    var items := DestinationItems(destinations, p, a);
    var counts: seq<nat> := seq(|items|, k requires 0 <= k < |items| => ItemRows(items[k], t));
    forall k | 0 <= k < |items|
      ensures counts[k] == if t.ToDestination? && Deliverable(p, t.channel) && destinations[k] == Destination(t.channel, t.target) then 1 else 0
    {
      DestinationItemRows(p, destinations[k], a.registered(k), t);
    }
    PlannedIsSum(items, counts, t);
    if t.ToDestination? && Deliverable(p, t.channel) {
      SumOfMatches(destinations, Destination(t.channel, t.target), counts);
    } else {
      SumOfZeros(counts);
    }
  }

  /** How often t must be written: once per listing of its group for each eligible member of that name
      the listing's own query returned, or once per listing of a deliverable destination. */
  ghost function RowsFor(groups: seq<string>, channels: seq<Channel>, destinations: seq<Destination>, p: Providers,
                         a: Answers, t: Target): nat
  {
    match t
    case ToMember(_, _, _) => Sum(ListingCounts(groups, channels, p, a, t))
    case ToDestination(target, c) => if Deliverable(p, c) then multiset(destinations)[Destination(c, target)] else 0
  }

  /** The plan by counting, whatever the queries answered: nothing else appears in it, and
      subscription decides no row's existence. */
  lemma PlanCountsListings(groups: seq<string>, channels: seq<Channel>, destinations: seq<Destination>, p: Providers,
                           a: Answers, t: Target)
    ensures Planned(Items(groups, channels, destinations, p, a), t) == RowsFor(groups, channels, destinations, p, a, t)
  {
    AllListings(groups, channels, p, a, t);
    DestinationRows(destinations, p, a, t);
    PlannedConcat(Flatten(GroupParts(groups, channels, p, a)), DestinationItems(destinations, p, a), t);
    if t.ToDestination? {
      forall i | 0 <= i < |groups| ensures ListingRows(channels, p, a, i, groups[i], t) == 0 {
        if a.list(i).Some? {
          SumOfZeros(MemberCounts(channels, p, groups[i], a.list(i).value, t));
        }
      }
      SumOfZeros(ListingCounts(groups, channels, p, a, t));
    }
  }

  /** On a steady directory: a member triple appears once for every time its group is listed if that
      member is eligible. */
  lemma PlanCounts(groups: seq<string>, channels: seq<Channel>, destinations: seq<Destination>, p: Providers,
                   a: Answers, directory: map<string, seq<Member>>, t: Target)
    requires SteadyDirectory(groups, a, directory)
    ensures Planned(Items(groups, channels, destinations, p, a), t)
            == match t
               case ToMember(g, u, c) =>
                 if g in directory && SomeoneEligible(channels, p, directory[g], u, c) then multiset(groups)[g] else 0
               case ToDestination(target, c) =>
                 if Deliverable(p, c) then multiset(destinations)[Destination(c, target)] else 0
  {
    PlanCountsListings(groups, channels, destinations, p, a, t);
    SteadyCounts(groups, channels, p, a, directory, t);
  }

  // ----- Why an item is in the plan -----

  /** How a delivery is made: a withheld SMS is not launched for a member, and writes its row from a
      goroutine for a destination; e-mail is tried once; the rest is retried. */
  predicate KindFits(kind: Kind, c: Channel, allowed: bool) {
    if c.Email? then kind == Mailing else if c.Sms? && !allowed then kind == Unregistered else kind == Retrying
  }

  ghost predicate MemberJustified(groups: seq<string>, channels: seq<Channel>, p: Providers, a: Answers, item: Item) {
    exists i: nat, j: nat :: MemberAt(groups, a, i, j) && MemberItem(groups[i], channels, p, a.list(i).value[j], a.subscribed(i, j), item)
  }

  /** The item stands for an eligible channel of this member. */
  predicate MemberItem(group: string, channels: seq<Channel>, p: Providers, m: Member, subscribed: bool, item: Item) {
    match item
    case Withhold(t) => t == ToMember(group, m.username, Sms) && Eligible(channels, p, m, Sms) && !subscribed
    case Launch(task) =>
      && task.target.ToMember? && task.target == ToMember(group, m.username, task.target.channel)
      && Eligible(channels, p, m, task.target.channel) && (task.target.channel.Sms? ==> subscribed)
      && KindFits(task.kind, task.target.channel, true)
  }

  ghost predicate DestinationJustified(destinations: seq<Destination>, p: Providers, a: Answers, item: Item) {
    exists i: nat :: i < |destinations| && DestinationFits(p, destinations[i], a.registered(i), item)
  }

  predicate DestinationFits(p: Providers, d: Destination, registered: bool, item: Item) {
    && item.Launch? && item.task.target == ToDestination(d.target, d.channel)
    && if Deliverable(p, d.channel) then KindFits(item.task.kind, d.channel, registered) else item.task.kind == NoProvider
  }

  lemma MemberItemsFit(channels: seq<Channel>, p: Providers, group: string, m: Member, subscribed: bool)
    ensures forall item :: item in MemberItems(channels, p, group, m, subscribed) ==>
              MemberItem(group, channels, p, m, subscribed, item)
  {
  }

  /** Whatever is in a concatenation is in one of its parts. */
  lemma {:induction false} InFlatten<T>(parts: seq<seq<T>>, x: T) returns (k: nat)
    requires x in Flatten(parts)
    ensures k < |parts| && x in parts[k]
  {
    var n := |parts| - 1;
    if x in parts[n] {
      k := n;
    } else {
      k := InFlatten(parts[..n], x);
    }
  }

  lemma GroupItemJustified(groups: seq<string>, channels: seq<Channel>, p: Providers, a: Answers, item: Item)
    requires item in Flatten(GroupParts(groups, channels, p, a))
    ensures MemberJustified(groups, channels, p, a, item)
  {
    var i := InFlatten(GroupParts(groups, channels, p, a), item);
    assert item in ListedItems(channels, p, a, i, groups[i]);
    var members := a.list(i).value;
    var j := InFlatten(MemberParts(channels, p, a, i, groups[i], members), item);
    MemberItemsFit(channels, p, groups[i], members[j], a.subscribed(i, j));
    assert MemberAt(groups, a, i, j);
  }

  /** Whatever the queries answered, every item of the plan is there for a listed member's eligible
      channel or for a listed destination: withheld only without a subscription, retried or mailed
      as its channel demands, and without effect only when its channel has no provider. */
  lemma ItemsJustified(groups: seq<string>, channels: seq<Channel>, destinations: seq<Destination>, p: Providers,
                       a: Answers, item: Item)
    requires item in Items(groups, channels, destinations, p, a)
    ensures MemberJustified(groups, channels, p, a, item) || DestinationJustified(destinations, p, a, item)
  {
    if item in Flatten(GroupParts(groups, channels, p, a)) {
      GroupItemJustified(groups, channels, p, a, item);
    } else {
      var i: nat :| i < |destinations| && DestinationItems(destinations, p, a)[i] == item;
      assert DestinationFits(p, destinations[i], a.registered(i), item);
    }
  }

  // ----- The number a voice call dials -----

  /** dispatchVoice dials the mobile column whenever it is not NULL. */
  function DialledNumber(m: Member): string {
    if m.mobile.Some? then m.mobile.value else if m.work.Some? then m.work.value else ""
  }
}
