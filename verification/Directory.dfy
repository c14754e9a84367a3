/** What the dispatcher reads from the member table the syncer keeps (ldap/sync.go as the only writer,
    notify/dispatcher.go as the reader). */
module Directory {
  import opened Common
  import opened FanOut
  import GroupSync

  /** A stored row as the dispatcher's query returns it. */
  function MemberOf(k: GroupSync.Key, row: GroupSync.Row): Member {
    Member(k.username, row.contact.mobile, row.contact.work, row.contact.email)
  }

  /** A query's answer: each row of the group once, in some order. */
  ghost predicate Lists(rows: GroupSync.Table, group: string, members: seq<Member>) {
    && (forall j :: 0 <= j < |members| ==>
          GroupSync.Key(group, members[j].username) in rows
          && members[j] == MemberOf(GroupSync.Key(group, members[j].username), rows[GroupSync.Key(group, members[j].username)]))
    && (forall k :: k in rows && k.group == group ==> exists j :: 0 <= j < |members| && members[j].username == k.username)
    && UniqueUsernames(members)
  }

  /** In every table the syncer leaves, starting from an empty one, a listed member eligible for voice
      is dialled on a real number: the mobile number if there is one, and the work number otherwise. */
  lemma VoiceDialsANumber(cycles: seq<GroupSync.Cycle>, group: string, members: seq<Member>, j: nat,
                          channels: seq<Channel>, p: Providers)
    requires Lists(GroupSync.AfterCycles(map[], cycles), group, members) && j < |members|
    requires Eligible(channels, p, members[j], Voice)
    ensures DialledNumber(members[j]) != ""
    ensures DialledNumber(members[j]) == if HasText(members[j].mobile) then members[j].mobile.value else members[j].work.value
  {
    GroupSync.CyclesKeepClean(map[], cycles);
  }

  /** So the dispatcher's tests for an empty column exclude nothing the tests for NULL do not. */
  lemma EmptyTestsAreNullTests(cycles: seq<GroupSync.Cycle>, group: string, members: seq<Member>, j: nat)
    requires Lists(GroupSync.AfterCycles(map[], cycles), group, members) && j < |members|
    ensures HasText(members[j].mobile) <==> members[j].mobile.Some?
    ensures HasText(members[j].work) <==> members[j].work.Some?
    ensures HasText(members[j].email) <==> members[j].email.Some?
  {
    GroupSync.CyclesKeepClean(map[], cycles);
  }

  /** Someone of a name is eligible in a listing exactly when the stored row of that name is. */
  lemma EligibleIsStored(rows: GroupSync.Table, group: string, members: seq<Member>, channels: seq<Channel>, p: Providers,
                         username: string, c: Channel)
    requires Lists(rows, group, members)
    ensures SomeoneEligible(channels, p, members, username, c)
       <==> GroupSync.Key(group, username) in rows
            && Eligible(channels, p, MemberOf(GroupSync.Key(group, username), rows[GroupSync.Key(group, username)]), c)
  {
    var k := GroupSync.Key(group, username);
    if k in rows {
      var j :| 0 <= j < |members| && members[j].username == k.username;
      assert members[j] == MemberOf(k, rows[k]);
    }
  }

  /** End to end: every listed member is someone LDAP listed for the group in a synchronisation that
      committed, texts go to that entry's mobile attribute, e-mails to its mail attribute, and calls to
      its mobile attribute or, when that is blank, its work attribute. */
  lemma ReachedAsInLdap(cycles: seq<GroupSync.Cycle>, group: string, members: seq<Member>, j: nat)
    returns (n: nat, i: nat, entry: nat)
    requires Lists(GroupSync.AfterCycles(map[], cycles), group, members) && j < |members|
    ensures n < |cycles| && cycles[n].groups.Some? && i < |cycles[n].groups.value| && cycles[n].groups.value[i] == group
    ensures GroupSync.Commits(cycles[n].answer(i)) && entry < |cycles[n].answer(i).search.value|
    ensures var m := cycles[n].answer(i).search.value[entry];
            && m.username == members[j].username
            && (if m.mobile == "" then members[j].mobile == None else members[j].mobile == Some(m.mobile))
            && (if m.email == "" then members[j].email == None else members[j].email == Some(m.email))
            && (if m.work == "" then members[j].work == None else members[j].work == Some(m.work))
            && DialledNumber(members[j]) == if m.mobile != "" then m.mobile else m.work
  {
    n, i, entry := GroupSync.RowsComeFromLdap(cycles, GroupSync.Key(group, members[j].username));
  }
}
