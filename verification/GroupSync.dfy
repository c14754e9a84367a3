/** The LDAP group synchronisation (ldap/sync.go): a transactional replacement of each configured
    group's rows, and the removal of groups no longer configured. */
module GroupSync {
  import opened Common

  /** The primary key of group_members. */
  datatype Key = Key(group: string, username: string)

  /** The contact columns; None is NULL. */
  datatype Contact = Contact(displayName: Option<string>, email: Option<string>, mobile: Option<string>, work: Option<string>)

  datatype Row = Row(contact: Contact, syncedAt: int)

  type Table = map<Key, Row>

  datatype LdapMember = LdapMember(username: string, displayName: string, email: string, mobile: string, work: string)

  /** A blank attribute is stored as NULL. */
  function ToNullable(s: string): Option<string> {
    if s == "" then None else Some(s)
  }

  function Columns(m: LdapMember): Contact {
    Contact(ToNullable(m.displayName), ToNullable(m.email), ToNullable(m.mobile), ToNullable(m.work))
  }

  /** What LDAP and the database answer while one group is synchronised. */
  datatype Answer = Answer(search: Option<seq<LdapMember>>, beginOk: bool, deleteOk: bool,
                           insertOk: nat -> bool, commitOk: bool, at: int)

  /** What one whole cycle meets: the configured groups (None when that query fails), the query of
      stored group names, the clean-up deletes, the connection, and the answer for the i-th group. */
  datatype Cycle = Cycle(groups: Option<seq<string>>, namesOk: bool, cleanOk: string -> bool, connectOk: bool,
                         answer: nat -> Answer)

  predicate Named(m: LdapMember) {
    m.username != ""
  }

  /** No two named members share a username, so no insert violates the primary key. */
  ghost predicate NoDuplicates(members: seq<LdapMember>) {
    forall i, j :: 0 <= i < j < |members| && Named(members[i]) ==> members[i].username != members[j].username
  }

  /** When a group's synchronisation commits. */
  ghost predicate Commits(a: Answer) {
    && a.search.Some? && a.beginOk && a.deleteOk && a.commitOk
    && NoDuplicates(a.search.value)
    && forall i :: 0 <= i < |a.search.value| && Named(a.search.value[i]) ==> a.insertOk(i)
  }

  function ClearGroup(rows: Table, group: string): Table {
    map k | k in rows && k.group != group :: rows[k]
  }

  /** The rows of the first n members inserted, blanks skipped. */
  function InsertAll(rows: Table, group: string, members: seq<LdapMember>, at: int, n: nat): Table
    requires n <= |members|
  {
    if n == 0 then rows
    else
      var before := InsertAll(rows, group, members, at, n - 1);
      var m := members[n - 1];
      if Named(m) then before[Key(group, m.username) := Row(Columns(m), at)] else before
  }

  /** One group: replaced when everything succeeds, untouched otherwise. */
  ghost function AfterSync(rows: Table, group: string, a: Answer): Table {
    if Commits(a) then InsertAll(ClearGroup(rows, group), group, a.search.value, a.at, |a.search.value|) else rows
  }

  ghost function AfterGroups(rows: Table, groups: seq<string>, answer: nat -> Answer, n: nat): Table
    requires n <= |groups|
  {
    if n == 0 then rows else AfterSync(AfterGroups(rows, groups, answer, n - 1), groups[n - 1], answer(n - 1))
  }

  function AfterCleanup(rows: Table, groups: seq<string>, c: Cycle): Table {
    if !c.namesOk then rows else map k | k in rows && (k.group in groups || !c.cleanOk(k.group)) :: rows[k]
  }

  ghost function AfterCycle(rows: Table, c: Cycle): Table {
    match c.groups
    case None => rows
    case Some(groups) =>
      var cleaned := AfterCleanup(rows, groups, c);
      if c.connectOk then AfterGroups(cleaned, groups, c.answer, |groups|) else cleaned
  }

  // ----- The syncer, changing the table in place -----

  class Syncer {
    var rows: Table

    constructor (rows: Table)
      ensures this.rows == rows
    {
      this.rows := rows;
    }

    /** syncGroup: the transaction works on its own copy, which a rollback discards. */
    method SyncGroup(group: string, a: Answer) returns (count: nat, ok: bool)
      modifies this
      ensures ok <==> Commits(a)
      ensures rows == AfterSync(old(rows), group, a)
      ensures count == if ok then |a.search.value| else 0
    {
      count := 0;
      if a.search.None? || !a.beginOk || !a.deleteOk {
        return 0, false;
      }
      var members := a.search.value;
      var tx := ClearGroup(rows, group);
      ghost var cleared := tx;
      for i := 0 to |members|
        invariant tx == InsertAll(cleared, group, members, a.at, i)
        invariant forall j :: 0 <= j < i && Named(members[j]) ==> a.insertOk(j)
        invariant forall j, k :: 0 <= j < k < i && Named(members[j]) ==> members[j].username != members[k].username
        invariant rows == old(rows)
      {
        var m := members[i];
        InsertAllKeys(cleared, group, members, a.at, i);
        if m.username == "" {
          continue;
        }
        if !a.insertOk(i) || Key(group, m.username) in tx {
          return 0, false;
        }
        tx := tx[Key(group, m.username) := Row(Columns(m), a.at)];
      }
      if !a.commitOk {
        return 0, false;
      }
      rows := tx;
      return |members|, true;
    }

    /** cleanupGroups: delete the rows of every stored group that is not configured. */
    method CleanupGroups(groups: seq<string>, c: Cycle)
      modifies this
      ensures rows == AfterCleanup(old(rows), groups, c)
    {
      if !c.namesOk {
        return;
      }
      var names := set k | k in rows :: k.group;
      ghost var was := rows;
      while names != {}
        invariant forall k :: k in rows ==> k in was && rows[k] == was[k]
        invariant forall k :: k in was && k !in rows ==> k.group !in groups && c.cleanOk(k.group)
        invariant forall k :: k in rows && k.group !in groups && c.cleanOk(k.group) ==> k.group in names
        decreases |names|
      {
        var name :| name in names;
        names := names - {name};
        if name !in groups && c.cleanOk(name) {
          rows := ClearGroup(rows, name);
        }
      }
    }

    method SyncOnce(c: Cycle) returns (totalMembers: nat, groupErrors: nat)
      modifies this
      ensures rows == AfterCycle(old(rows), c)
      ensures c.groups.Some? && c.connectOk ==>
                groupErrors == Failures(c.answer, |c.groups.value|) && totalMembers == MembersFound(c.answer, |c.groups.value|)
      ensures c.groups.None? || !c.connectOk ==> totalMembers == groupErrors == 0
    {
      totalMembers, groupErrors := 0, 0;
      if c.groups.None? {
        return;
      }
      var groups := c.groups.value;
      CleanupGroups(groups, c);
      if |groups| == 0 {
        return;
      }
      if !c.connectOk {
        return;
      }
      ghost var cleaned := rows;
      for i := 0 to |groups|
        invariant rows == AfterGroups(cleaned, groups, c.answer, i)
        invariant groupErrors == Failures(c.answer, i) && totalMembers == MembersFound(c.answer, i)
      {
        var count, ok := SyncGroup(groups[i], c.answer(i));
        if !ok {
          groupErrors := groupErrors + 1;
          continue;
        }
        totalMembers := totalMembers + count;
      }
    }
  }

  ghost function Failures(answer: nat -> Answer, n: nat): nat {
    if n == 0 then 0 else Failures(answer, n - 1) + if Commits(answer(n - 1)) then 0 else 1
  }

  /** The members LDAP listed for the groups that committed, blank usernames included. */
  ghost function MembersFound(answer: nat -> Answer, n: nat): nat {
    if n == 0 then 0
    else MembersFound(answer, n - 1) + if Commits(answer(n - 1)) then |answer(n - 1).search.value| else 0
  }

  // ----- What one group's synchronisation leaves -----

  /** Key k names one of the first n named members. */
  ghost predicate Lists(members: seq<LdapMember>, n: nat, username: string)
    requires n <= |members|
  {
    exists i :: 0 <= i < n && members[i].username == username && Named(members[i])
  }

  lemma {:induction false} InsertAllKeys(rows: Table, group: string, members: seq<LdapMember>, at: int, n: nat)
    requires n <= |members|
    ensures forall k :: k in InsertAll(rows, group, members, at, n)
                   <==> k in rows || (k.group == group && Lists(members, n, k.username))
    ensures forall k :: k in rows && !(k.group == group && Lists(members, n, k.username))
                   ==> InsertAll(rows, group, members, at, n)[k] == rows[k]
  {
    if n > 0 {
      InsertAllKeys(rows, group, members, at, n - 1);
      ListsGrows(members, n);
    }
  }

  lemma ListsGrows(members: seq<LdapMember>, n: nat)
    requires 0 < n <= |members|
    ensures forall u :: Lists(members, n, u) <==> Lists(members, n - 1, u) || (Named(members[n - 1]) && members[n - 1].username == u)
  {
  }

  lemma {:induction false} InsertAllValue(rows: Table, group: string, members: seq<LdapMember>, at: int, n: nat, i: nat)
    requires i < n <= |members| && Named(members[i]) && NoDuplicates(members)
    ensures Key(group, members[i].username) in InsertAll(rows, group, members, at, n)
    ensures InsertAll(rows, group, members, at, n)[Key(group, members[i].username)] == Row(Columns(members[i]), at)
  {
    if i < n - 1 {
      InsertAllValue(rows, group, members, at, n - 1, i);
    }
  }

  /** A column holds its LDAP attribute; a blank one is NULL. */
  predicate Holds(column: Option<string>, attribute: string) {
    if attribute == "" then column == None else column == Some(attribute)
  }

  /** The row holds this LDAP entry, column by column. */
  predicate Stores(row: Row, m: LdapMember, at: int) {
    && Holds(row.contact.displayName, m.displayName) && Holds(row.contact.email, m.email)
    && Holds(row.contact.mobile, m.mobile) && Holds(row.contact.work, m.work) && row.syncedAt == at
  }

  /** All or nothing: a synchronised group's rows are exactly LDAP's named members with their
      contact data; on any failure, a duplicate username included, nothing changes; and the rows of
      every other group are untouched either way. */
  lemma SyncExact(rows: Table, group: string, a: Answer, k: Key)
    ensures k.group != group || !Commits(a) ==>
              (k in AfterSync(rows, group, a) <==> k in rows) && (k in rows ==> AfterSync(rows, group, a)[k] == rows[k])
    ensures k.group == group && Commits(a) ==>
              (k in AfterSync(rows, group, a) <==> Lists(a.search.value, |a.search.value|, k.username))
    ensures forall i :: k.group == group && Commits(a) && 0 <= i < |a.search.value| && Named(a.search.value[i])
              && a.search.value[i].username == k.username
              ==> k in AfterSync(rows, group, a) && Stores(AfterSync(rows, group, a)[k], a.search.value[i], a.at)
  {
    if Commits(a) {
      var members := a.search.value;
      InsertAllKeys(ClearGroup(rows, group), group, members, a.at, |members|);
      forall i | k.group == group && 0 <= i < |members| && Named(members[i]) && members[i].username == k.username
        ensures k in AfterSync(rows, group, a) && Stores(AfterSync(rows, group, a)[k], members[i], a.at)
      {
        InsertAllValue(ClearGroup(rows, group), group, members, a.at, |members|, i);
        assert k == Key(group, members[i].username);
      }
    }
  }

  /** Each failure by itself, from the search to the commit, leaves the table as it was. */
  lemma AnyFailureLeavesAll(rows: Table, group: string, a: Answer, i: nat, j: nat)
    requires || a.search == None || !a.beginOk || !a.deleteOk || !a.commitOk
             || (i < |a.search.value| && a.search.value[i].username != "" && !a.insertOk(i))
             || (i < j < |a.search.value| && a.search.value[i].username == a.search.value[j].username != "")
    ensures AfterSync(rows, group, a) == rows
  {
    if a.search.Some? && i < |a.search.value| {
      assert Named(a.search.value[i]) <==> a.search.value[i].username != "";
    }
  }

  // ----- What a whole cycle leaves -----

  /** Two tables agree on one key. */
  predicate SameAt(x: Table, y: Table, k: Key) {
    (k in x <==> k in y) && (k in x && k in y ==> x[k] == y[k])
  }

  lemma {:induction false} GroupsUntouched(rows: Table, groups: seq<string>, answer: nat -> Answer, n: nat, k: Key)
    requires n <= |groups| && forall i :: 0 <= i < n ==> groups[i] != k.group
    ensures SameAt(AfterGroups(rows, groups, answer, n), rows, k)
  {
    if n > 0 {
      GroupsUntouched(rows, groups, answer, n - 1, k);
      SyncExact(AfterGroups(rows, groups, answer, n - 1), groups[n - 1], answer(n - 1), k);
    }
  }

  /** The cycle decides the i-th group by that group's own answer alone. */
  lemma {:induction false} GroupDecided(rows: Table, groups: seq<string>, answer: nat -> Answer, n: nat, i: nat, k: Key)
    requires i < n <= |groups| && Distinct(groups) && k.group == groups[i]
    ensures SameAt(AfterGroups(rows, groups, answer, n), AfterSync(rows, groups[i], answer(i)), k)
  {
    var before := AfterGroups(rows, groups, answer, n - 1);
    if i == n - 1 {
      GroupsUntouched(rows, groups, answer, n - 1, k);
      SyncExact(before, groups[i], answer(i), k);
      SyncExact(rows, groups[i], answer(i), k);
    } else {
      GroupDecided(rows, groups, answer, n - 1, i, k);
      SyncExact(before, groups[n - 1], answer(n - 1), k);
    }
  }

  /** After a cycle, a configured group's rows are exactly LDAP's named members if the connection
      and its synchronisation succeeded, and its old rows otherwise; an unconfigured group keeps no
      row when the clean-up succeeds, even when connecting fails. */
  lemma CycleExact(rows: Table, c: Cycle, k: Key)
    requires c.groups.Some? && Distinct(c.groups.value)
    ensures k.group !in c.groups.value ==>
              (k in AfterCycle(rows, c) <==> k in rows && !(c.namesOk && c.cleanOk(k.group)))
    ensures k.group !in c.groups.value && k in AfterCycle(rows, c) ==> AfterCycle(rows, c)[k] == rows[k]
    ensures forall i :: 0 <= i < |c.groups.value| && c.groups.value[i] == k.group ==>
              SameAt(AfterCycle(rows, c), if c.connectOk then AfterSync(rows, k.group, c.answer(i)) else rows, k)
  {
    var groups := c.groups.value;
    var cleaned := AfterCleanup(rows, groups, c);
    if k.group in groups {
      assert SameAt(cleaned, rows, k);
      forall i | 0 <= i < |groups| && groups[i] == k.group
        ensures SameAt(AfterCycle(rows, c), if c.connectOk then AfterSync(rows, k.group, c.answer(i)) else rows, k)
      {
        if c.connectOk {
          GroupDecided(cleaned, groups, c.answer, |groups|, i, k);
          SyncExact(cleaned, k.group, c.answer(i), k);
          SyncExact(rows, k.group, c.answer(i), k);
        }
      }
    } else {
      GroupsUntouched(cleaned, groups, c.answer, |groups|, k);
    }
  }

  // ----- Repeating a cycle -----

  /** The same answers at a later time. */
  ghost predicate SameButLater(a: Answer, b: Answer) {
    a.search == b.search && (Commits(a) <==> Commits(b))
  }

  /** A repeated cycle with nothing changed alters only the time stamps. */
  lemma RepeatChangesOnlyStamps(rows: Table, c1: Cycle, c2: Cycle, k: Key)
    requires c1.groups.Some? && Distinct(c1.groups.value) && c2.groups == c1.groups
    requires c2.namesOk == c1.namesOk && c2.cleanOk(k.group) == c1.cleanOk(k.group) && c2.connectOk == c1.connectOk
    requires forall i: nat :: i < |c1.groups.value| ==> SameButLater(c1.answer(i), c2.answer(i))
    ensures var once := AfterCycle(rows, c1);
            var twice := AfterCycle(once, c2);
            (k in twice <==> k in once) && (k in once ==> twice[k].contact == once[k].contact)
  {
    var once := AfterCycle(rows, c1);
    CycleExact(rows, c1, k);
    CycleExact(once, c2, k);
    if k.group in c1.groups.value {
      var i: nat :| i < |c1.groups.value| && c1.groups.value[i] == k.group;
      SyncExact(rows, k.group, c1.answer(i), k);
      SyncExact(once, k.group, c2.answer(i), k);
      assert SameButLater(c1.answer(i), c2.answer(i));
      if c1.connectOk && Commits(c1.answer(i)) && k in once {
        var members := c1.answer(i).search.value;
        var j :| 0 <= j < |members| && members[j].username == k.username && Named(members[j]);
      }
    }
  }

  // ----- Blanks are NULL -----

  predicate CleanContact(c: Contact) {
    c.displayName != Some("") && c.email != Some("") && c.mobile != Some("") && c.work != Some("")
  }

  /** No contact column of any row holds an empty string. */
  ghost predicate CleanTable(rows: Table) {
    forall k :: k in rows ==> CleanContact(rows[k].contact)
  }

  lemma {:induction false} InsertAllClean(rows: Table, group: string, members: seq<LdapMember>, at: int, n: nat)
    requires n <= |members| && CleanTable(rows)
    ensures CleanTable(InsertAll(rows, group, members, at, n))
  {
    if n > 0 {
      InsertAllClean(rows, group, members, at, n - 1);
    }
  }

  lemma {:induction false} GroupsClean(rows: Table, groups: seq<string>, answer: nat -> Answer, n: nat)
    requires n <= |groups| && CleanTable(rows)
    ensures CleanTable(AfterGroups(rows, groups, answer, n))
  {
    if n > 0 {
      GroupsClean(rows, groups, answer, n - 1);
      var before, a := AfterGroups(rows, groups, answer, n - 1), answer(n - 1);
      if Commits(a) {
        InsertAllClean(ClearGroup(before, groups[n - 1]), groups[n - 1], a.search.value, a.at, |a.search.value|);
      }
    }
  }

  lemma CycleClean(rows: Table, c: Cycle)
    requires CleanTable(rows)
    ensures CleanTable(AfterCycle(rows, c))
  {
    if c.groups.Some? && c.connectOk {
      GroupsClean(AfterCleanup(rows, c.groups.value, c), c.groups.value, c.answer, |c.groups.value|);
    }
  }

  ghost function AfterCycles(rows: Table, cycles: seq<Cycle>): Table {
    if cycles == [] then rows else AfterCycle(AfterCycles(rows, cycles[..|cycles| - 1]), cycles[|cycles| - 1])
  }

  /** The syncer is the only writer of the table, so in every table it leaves, whatever LDAP listed and
      whatever failed, no contact column holds an empty string. */
  lemma {:induction false} CyclesKeepClean(rows: Table, cycles: seq<Cycle>)
    requires CleanTable(rows)
    ensures CleanTable(AfterCycles(rows, cycles))
  {
    if cycles != [] {
      CyclesKeepClean(rows, cycles[..|cycles| - 1]);
      CycleClean(AfterCycles(rows, cycles[..|cycles| - 1]), cycles[|cycles| - 1]);
    }
  }

  // ----- Where stored contacts come from -----

  /** The i-th group of this cycle, when it was synchronised, listed an entry that the row stores. */
  ghost predicate SyncedFrom(c: Cycle, i: nat, j: nat, k: Key, row: Row) {
    && c.groups.Some? && c.connectOk && i < |c.groups.value| && c.groups.value[i] == k.group
    && Commits(c.answer(i)) && j < |c.answer(i).search.value|
    && c.answer(i).search.value[j].username == k.username != "" && Stores(row, c.answer(i).search.value[j], c.answer(i).at)
  }

  lemma {:induction false} GroupsSource(rows: Table, c: Cycle, n: nat, k: Key)
    requires c.groups.Some? && c.connectOk && n <= |c.groups.value|
    requires k in AfterGroups(rows, c.groups.value, c.answer, n)
    ensures var row := AfterGroups(rows, c.groups.value, c.answer, n)[k];
            (k in rows && rows[k] == row) || exists i: nat, j: nat :: SyncedFrom(c, i, j, k, row)
  {
    if n > 0 {
      var before, group, a := AfterGroups(rows, c.groups.value, c.answer, n - 1), c.groups.value[n - 1], c.answer(n - 1);
      SyncExact(before, group, a, k);
      if k.group == group && Commits(a) {
        var j :| 0 <= j < |a.search.value| && a.search.value[j].username == k.username && Named(a.search.value[j]);
        assert SyncedFrom(c, n - 1, j, k, AfterSync(before, group, a)[k]);
      } else {
        GroupsSource(rows, c, n - 1, k);
      }
    }
  }

  lemma CycleSource(rows: Table, c: Cycle, k: Key)
    requires k in AfterCycle(rows, c)
    ensures var row := AfterCycle(rows, c)[k];
            (k in rows && rows[k] == row) || exists i: nat, j: nat :: SyncedFrom(c, i, j, k, row)
  {
    if c.groups.Some? && c.connectOk {
      GroupsSource(AfterCleanup(rows, c.groups.value, c), c, |c.groups.value|, k);
    }
  }

  /** Every row of every table the syncer leaves stores, column by column, an entry that LDAP listed for
      its group and username in a synchronisation that committed. */
  lemma {:induction false} RowsComeFromLdap(cycles: seq<Cycle>, k: Key) returns (n: nat, i: nat, j: nat)
    requires k in AfterCycles(map[], cycles)
    ensures n < |cycles| && SyncedFrom(cycles[n], i, j, k, AfterCycles(map[], cycles)[k])
  {
    var before := AfterCycles(map[], cycles[..|cycles| - 1]);
    var row := AfterCycles(map[], cycles)[k];
    n := |cycles| - 1;
    CycleSource(before, cycles[n], k);
    if i', j' :| SyncedFrom(cycles[n], i', j', k, row) {
      i, j := i', j';
    } else {
      n, i, j := RowsComeFromLdap(cycles[..n], k);
    }
  }

  // ----- The count a synchronisation reports -----

  function RowsOf(rows: Table, group: string): set<Key> {
    set k | k in rows && k.group == group
  }

  function NamedCount(members: seq<LdapMember>, n: nat): (count: nat)
    requires n <= |members|
    ensures count <= n
  {
    if n == 0 then 0 else NamedCount(members, n - 1) + if Named(members[n - 1]) then 1 else 0
  }

  lemma {:induction false} NamedCountIsAll(members: seq<LdapMember>, n: nat)
    requires n <= |members|
    ensures NamedCount(members, n) == n <==> forall i :: 0 <= i < n ==> Named(members[i])
  {
    if n > 0 {
      NamedCountIsAll(members, n - 1);
    }
  }

  lemma {:induction false} RowsInserted(rows: Table, group: string, members: seq<LdapMember>, at: int, n: nat)
    requires n <= |members| && NoDuplicates(members) && RowsOf(rows, group) == {}
    ensures |RowsOf(InsertAll(rows, group, members, at, n), group)| == NamedCount(members, n)
  {
    if n > 0 {
      RowsInserted(rows, group, members, at, n - 1);
      var before, m := InsertAll(rows, group, members, at, n - 1), members[n - 1];
      if Named(m) {
        InsertAllKeys(rows, group, members, at, n - 1);
        assert Key(group, m.username) !in before by {
          assert Key(group, m.username) !in RowsOf(rows, group);
        }
        assert RowsOf(InsertAll(rows, group, members, at, n), group) == RowsOf(before, group) + {Key(group, m.username)};
      } else {
        assert InsertAll(rows, group, members, at, n) == before;
      }
    }
  }

  /** The member count SyncGroup reports for a synchronised group is the number of rows stored for it
      if and only if LDAP listed no blank username; otherwise it is larger. */
  lemma CountIsRowsStoredIff(rows: Table, group: string, a: Answer)
    requires Commits(a)
    ensures |RowsOf(AfterSync(rows, group, a), group)| <= |a.search.value|
    ensures |RowsOf(AfterSync(rows, group, a), group)| == |a.search.value|
       <==> forall i :: 0 <= i < |a.search.value| ==> Named(a.search.value[i])
  {
    var members := a.search.value;
    assert RowsOf(ClearGroup(rows, group), group) == {};
    RowsInserted(ClearGroup(rows, group), group, members, a.at, |members|);
    NamedCountIsAll(members, |members|);
  }

  /** One nameless LDAP entry: one member reported, no row stored. */
  lemma BlankMemberExample(a: Answer)
    requires a == Answer(Some([LdapMember("", "Printer", "", "", "")]), true, true, (i: nat) => true, true, 0)
    ensures Commits(a) && |a.search.value| == 1 && RowsOf(AfterSync(map[], "ops", a), "ops") == {}
  {
    assert !Named(a.search.value[0]);
    assert InsertAll(ClearGroup(map[], "ops"), "ops", a.search.value, 0, 1) == InsertAll(ClearGroup(map[], "ops"), "ops", a.search.value, 0, 0);
  }

  // ----- The totals a cycle reports -----

  ghost function FailedGroups(answer: nat -> Answer, n: nat): set<nat> {
    set i: nat | i < n && !Commits(answer(i))
  }

  /** The groups counted as failed are those that did not commit, each once. */
  lemma {:induction false} FailuresCounted(answer: nat -> Answer, n: nat)
    ensures Failures(answer, n) == |FailedGroups(answer, n)|
  {
    if n > 0 {
      FailuresCounted(answer, n - 1);
      var earlier := FailedGroups(answer, n - 1);
      if Commits(answer(n - 1)) {
        assert FailedGroups(answer, n) == earlier;
      } else {
        assert FailedGroups(answer, n) == earlier + {n - 1} && n - 1 !in earlier;
      }
    }
  }

  /** The entries LDAP listed for the groups that committed, by position. */
  ghost function EntriesFound(answer: nat -> Answer, n: nat): set<(nat, nat)> {
    set i: nat, j: nat | i < n && j < EntryCount(answer(i)) :: (i, j)
  }

  ghost function EntryCount(a: Answer): nat {
    if Commits(a) then |a.search.value| else 0
  }

  lemma EntriesNext(answer: nat -> Answer, n: nat)
    ensures |EntriesFound(answer, n + 1)| == |EntriesFound(answer, n)| + EntryCount(answer(n))
  {
    PairsAtCount(n, EntryCount(answer(n)));
    DisjointSize(EntriesFound(answer, n), PairsAt(n, EntryCount(answer(n))), EntriesFound(answer, n + 1));
  }

  /** The members totalled are the entries of the groups that committed, each once. */
  lemma {:induction false} MembersCounted(answer: nat -> Answer, n: nat)
    ensures MembersFound(answer, n) == |EntriesFound(answer, n)|
  {
    if n > 0 {
      MembersCounted(answer, n - 1);
      EntriesNext(answer, n - 1);
    }
  }
}
