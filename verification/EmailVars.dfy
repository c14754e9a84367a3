/** E-mail deliveries (notify/dispatcher.go): the template data, its dotted paths, and the checks
    that decide the single row each e-mail delivery writes. */
module EmailVars {
  import opened Common
  import opened Retry
  import opened Engine

  /** Template data: an object, or any other value (a null included). */
  datatype Value =
    | Object(fields: map<string, Value>)
    | Leaf(text: string)
    | Null

  type Vars = map<string, Value>

  /** The position of the first '.' in s. */
  function FirstDot(s: string): (r: Option<nat>)
    ensures r.Some? ==> r.value < |s| && s[r.value] == '.' && '.' !in s[..r.value]
    ensures r.None? ==> '.' !in s
  {
    if s == "" then None
    else if s[0] == '.' then Some(0)
    else match FirstDot(s[1..])
         case None => None
         case Some(i) => Some(i + 1)
  }

  /** walkPath: whether a dotted path leads to a value. */
  predicate WalkPath(vars: Vars, path: string)
    decreases |path|
  {
    match FirstDot(path)
    case None => path in vars
    case Some(dot) =>
      && path[..dot] in vars
      && vars[path[..dot]].Object?
      && WalkPath(vars[path[..dot]].fields, path[dot + 1..])
  }

  // ----- walkPath as a fold over the dot-split path -----

  function SplitDots(s: string): (parts: seq<string>)
    ensures parts != []
    decreases |s|
  {
    match FirstDot(s)
    case None => [s]
    case Some(dot) => [s[..dot]] + SplitDots(s[dot + 1..])
  }

  /** One step of the fold: index an object by a key. */
  function Index(v: Option<Value>, key: string): Option<Value> {
    if v.Some? && v.value.Object? && key in v.value.fields then Some(v.value.fields[key]) else None
  }

  function FoldPath(v: Option<Value>, parts: seq<string>): Option<Value>
    decreases |parts|
  {
    if parts == [] then v else FoldPath(Index(v, parts[0]), parts[1..])
  }

  lemma {:induction false} FoldNone(parts: seq<string>)
    ensures FoldPath(None, parts) == None
  {
    if parts != [] {
      FoldNone(parts[1..]);
    }
  }

  lemma {:induction false} FoldFromLeaf(v: Value, parts: seq<string>)
    requires !v.Object? && parts != []
    ensures FoldPath(Some(v), parts) == None
  {
    FoldNone(parts[1..]);
  }

  /** A path is found exactly when indexing by its dot-separated pieces, one after the other, never
      fails; what it leads to may be a null. */
  lemma {:induction false} WalkPathIsFold(vars: Vars, path: string)
    ensures WalkPath(vars, path) <==> FoldPath(Some(Object(vars)), SplitDots(path)).Some?
    decreases |path|
  {
    match FirstDot(path)
    case None =>
      assert SplitDots(path)[1..] == [];
    case Some(dot) =>
      var key, rest := path[..dot], path[dot + 1..];
      assert SplitDots(path)[0] == key && SplitDots(path)[1..] == SplitDots(rest);
      if key !in vars {
        FoldNone(SplitDots(rest));
      } else if vars[key].Object? {
        WalkPathIsFold(vars[key].fields, rest);
      } else {
        FoldFromLeaf(vars[key], SplitDots(rest));
      }
  }

  /** "Exists and is non-nil", as the comment on walkPath has it. */
  predicate ExistsNonNil(vars: Vars, path: string) {
    FoldPath(Some(Object(vars)), SplitDots(path)).Some? && FoldPath(Some(Object(vars)), SplitDots(path)) != Some(Null)
  }

  /** walkPath agrees with its comment if and only if the path does not lead to a null. */
  lemma WalkPathIsNonNilIff(vars: Vars, path: string)
    ensures (WalkPath(vars, path) <==> ExistsNonNil(vars, path)) <==> FoldPath(Some(Object(vars)), SplitDots(path)) != Some(Null)
  {
    WalkPathIsFold(vars, path);
  }

  /** A null variable is found: {"a": null} has the path a. */
  lemma NullPathExample()
    ensures WalkPath(map["a" := Null], "a") && !ExistsNonNil(map["a" := Null], "a")
  {
    assert FirstDot("a") == None;
    assert SplitDots("a") == ["a"];
    assert FoldPath(Some(Object(map["a" := Null])), ["a"]) == FoldPath(Some(Null), []) by {
      assert ["a"][1..] == [];
    }
  }

  // ----- mergeEmailVars -----

  const NOTIFICATION := "notification"
  const EVENT := "event"

  /** The merged data: the user's variables, with the two reserved keys always overwritten. */
  function Merge(user: Vars, notification: Vars, event: Vars): Vars {
    user[NOTIFICATION := Object(notification)][EVENT := Object(event)]
  }

  method MergeEmailVars(user: Vars, n: NotificationRow, e: EventRow) returns (merged: Vars)
    ensures merged == Merge(user, NotificationVars(n), EventVars(e))
  {
    merged := map[];
    var keys := user.Keys;
    while keys != {}
      invariant keys <= user.Keys
      invariant merged.Keys == user.Keys - keys
      invariant forall k :: k in merged ==> merged[k] == user[k]
      decreases |keys|
    {
      var k :| k in keys;
      merged := merged[k := user[k]];
      keys := keys - {k};
    }
    assert merged == user;
    merged := merged[NOTIFICATION := Object(NotificationVars(n))];
    merged := merged[EVENT := Object(EventVars(e))];
  }

  /** The first segment of a path. */
  function Head(path: string): string {
    match FirstDot(path)
    case None => path
    case Some(dot) => path[..dot]
  }

  /** Paths under a reserved key do not depend on the user's variables; all others depend on nothing
      else. */
  lemma MergeSeparates(user1: Vars, user2: Vars, notification: Vars, event: Vars, path: string)
    ensures Head(path) == NOTIFICATION || Head(path) == EVENT ==>
              (WalkPath(Merge(user1, notification, event), path) <==> WalkPath(Merge(user2, notification, event), path))
    ensures Head(path) != NOTIFICATION && Head(path) != EVENT ==>
              (WalkPath(Merge(user1, notification, event), path) <==> WalkPath(user1, path))
  {
  }

  /** What a path leads to. */
  function ValueAt(vars: Vars, path: string): Option<Value> {
    FoldPath(Some(Object(vars)), SplitDots(path))
  }

  lemma DottedPath(key: string, path: string)
    requires '.' !in key
    ensures SplitDots(key + "." + path) == [key] + SplitDots(path)
  {
    var whole := key + "." + path;
    FirstDotAt(key, path);
    assert whole[..|key|] == key && whole[|key| + 1..] == path;
  }

  lemma {:induction false} FirstDotAt(key: string, path: string)
    requires '.' !in key
    ensures FirstDot(key + "." + path) == Some(|key|)
  {
    var whole := key + "." + path;
    if key != "" {
      FirstDotAt(key[1..], path);
      assert whole[1..] == key[1..] + "." + path;
    }
  }

  lemma FoldUnder(vars: Vars, key: string, fields: Vars, path: string)
    requires '.' !in key && key in vars && vars[key] == Object(fields)
    ensures ValueAt(vars, key + "." + path) == ValueAt(fields, path)
  {
    DottedPath(key, path);
    assert ([key] + SplitDots(path))[1..] == SplitDots(path);
  }

  /** A path under "notification" leads where it leads in the notification's own data, and one under
      "event" where it leads in the event's. */
  lemma MergeLeads(user: Vars, notification: Vars, event: Vars, path: string)
    ensures ValueAt(Merge(user, notification, event), NOTIFICATION + "." + path) == ValueAt(notification, path)
    ensures ValueAt(Merge(user, notification, event), EVENT + "." + path) == ValueAt(event, path)
  {
    FoldUnder(Merge(user, notification, event), NOTIFICATION, notification, path);
    FoldUnder(Merge(user, notification, event), EVENT, event, path);
  }

  /** Every other path leads where it leads in the user's variables. */
  lemma MergeLeavesUser(user: Vars, notification: Vars, event: Vars, path: string)
    requires SplitDots(path)[0] != NOTIFICATION && SplitDots(path)[0] != EVENT
    ensures ValueAt(Merge(user, notification, event), path) == ValueAt(user, path)
  {
    var merged, key := Merge(user, notification, event), SplitDots(path)[0];
    assert Index(Some(Object(merged)), key) == Index(Some(Object(user)), key);
  }

  // ----- The dispatch context -----

  /** The rows the context is taken from. */
  datatype NotificationRow = NotificationRow(id: string, message: string, createdAt: string, groups: Value)
  datatype EventRow = EventRow(id: string, url: string, name: string, description: string, severity: string,
                               startTime: string, endTime: string)

  function NotificationVars(n: NotificationRow): Vars {
    map["id" := Leaf(n.id), "message" := Leaf(n.message), "created_at" := Leaf(n.createdAt), "groups" := n.groups]
  }

  function EventVars(e: EventRow): Vars {
    map["id" := Leaf(e.id), "url" := Leaf(e.url), "name" := Leaf(e.name), "description" := Leaf(e.description),
        "severity" := Leaf(e.severity), "start_time" := Leaf(e.startTime), "end_time" := Leaf(e.endTime)]
  }

  lemma KeyPath(vars: Vars, key: string)
    requires '.' !in key
    ensures ValueAt(vars, key) == if key in vars then Some(vars[key]) else None
  {
    assert FirstDot(key) == None;
    assert [key][1..] == [];
    assert FoldPath(Some(Object(vars)), [key]) == FoldPath(Index(Some(Object(vars)), key), []);
  }

  /** What a template finds under a key of its notification and of its event. */
  function NotificationColumn(n: NotificationRow, key: string): Option<Value> {
    match key
    case "id" => Some(Leaf(n.id))
    case "message" => Some(Leaf(n.message))
    case "created_at" => Some(Leaf(n.createdAt))
    case "groups" => Some(n.groups)
    case _ => None
  }

  function EventColumn(e: EventRow, key: string): Option<Value> {
    match key
    case "id" => Some(Leaf(e.id))
    case "url" => Some(Leaf(e.url))
    case "name" => Some(Leaf(e.name))
    case "description" => Some(Leaf(e.description))
    case "severity" => Some(Leaf(e.severity))
    case "start_time" => Some(Leaf(e.startTime))
    case "end_time" => Some(Leaf(e.endTime))
    case _ => None
  }

  lemma NotificationKeys(n: NotificationRow, key: string)
    ensures (if key in NotificationVars(n) then Some(NotificationVars(n)[key]) else None) == NotificationColumn(n, key)
  {
  }

  lemma EventKeys(e: EventRow, key: string)
    ensures (if key in EventVars(e) then Some(EventVars(e)[key]) else None) == EventColumn(e, key)
  {
  }

  /** Whatever variables the user supplied, "notification." and a key lead to that column of the
      notification, "event." and a key to that column of the event, and to nothing where there is none. */
  lemma ContextPaths(user: Vars, n: NotificationRow, e: EventRow, key: string)
    requires '.' !in key
    ensures ValueAt(Merge(user, NotificationVars(n), EventVars(e)), NOTIFICATION + "." + key) == NotificationColumn(n, key)
    ensures ValueAt(Merge(user, NotificationVars(n), EventVars(e)), EVENT + "." + key) == EventColumn(e, key)
  {
    var notification, event := NotificationVars(n), EventVars(e);
    ContextPath(user, notification, event, key);
    NotificationKeys(n, key);
    EventKeys(e, key);
  }

  lemma ContextPath(user: Vars, notification: Vars, event: Vars, key: string)
    requires '.' !in key
    ensures ValueAt(Merge(user, notification, event), NOTIFICATION + "." + key) ==
              if key in notification then Some(notification[key]) else None
    ensures ValueAt(Merge(user, notification, event), EVENT + "." + key) == if key in event then Some(event[key]) else None
  {
    MergeLeads(user, notification, event, key);
    KeyPath(notification, key);
    KeyPath(event, key);
  }

  // ----- One e-mail delivery -----

  /** What the database, the JSON decoder, the renderer and the mail server answer. */
  datatype MailInputs = MailInputs(
    templateName: Option<string>,
    template: Option<Option<seq<string>>>,   // the stored template's required variables, if they decode
    userVars: Option<Vars>,                  // None when email_vars is not a JSON object
    eventId: string,
    event: Option<EventRow>,
    notification: NotificationRow,
    renderError: Option<string>,
    sendError: Option<string>)

  /** The data the template is checked and rendered with. */
  function DataOf(m: MailInputs): Vars
    requires m.userVars.Some? && m.event.Some?
  {
    Merge(m.userVars.value, NotificationVars(m.notification), EventVars(m.event.value))
  }

  predicate HasTemplateName(m: MailInputs) {
    m.templateName.Some? && m.templateName.value != ""
  }

  /** The template, the variables and the event are there, and the template's own list decodes. */
  predicate Loaded(m: MailInputs) {
    HasTemplateName(m) && m.template.Some? && m.userVars.Some? && m.event.Some? && m.template.value.Some?
  }

  /** Everything the delivery needs before it may be sent. */
  predicate Sendable(m: MailInputs) {
    && Loaded(m)
    && (forall i :: 0 <= i < |m.template.value.value| ==> WalkPath(DataOf(m), m.template.value.value[i]))
    && m.renderError.None?
  }

  /** The i-th required variable is the first that is missing. */
  predicate FirstMissing(m: MailInputs, i: nat)
    requires Loaded(m)
  {
    && i < |m.template.value.value|
    && !WalkPath(DataOf(m), m.template.value.value[i])
    && forall j :: 0 <= j < i ==> WalkPath(DataOf(m), m.template.value.value[j])
  }

  /** dispatchEmail and dispatchEmailToDestination: exactly one row, attempt 1; the mail server is
      called at most once, and exactly when every check passes; the row says "sent" exactly when
      that call succeeds, and otherwise gives the first check that failed, or the server's error. */
  method DispatchEmail(m: MailInputs) returns (row: Outcome, sends: nat)
    ensures MailOutcome(row)
    ensures sends == if Sendable(m) then 1 else 0
    ensures row.status == "sent" <==> Sendable(m) && m.sendError.None?
    ensures Sendable(m) ==> row.error == m.sendError
    ensures !HasTemplateName(m) ==> row.error == Some("no email template specified")
    ensures HasTemplateName(m) && m.template.None? ==> row.error == Some("template not found: " + m.templateName.value)
    ensures HasTemplateName(m) && m.template.Some? && m.userVars.None? ==> row.error == Some("invalid email_vars JSON")
    ensures HasTemplateName(m) && m.template.Some? && m.userVars.Some? && m.event.None? ==>
              row.error == Some("failed to load event: " + m.eventId)
    ensures HasTemplateName(m) && m.template.Some? && m.userVars.Some? && m.event.Some? && m.template.value.None? ==>
              row.error == Some("template has invalid required_vars")
    ensures forall i: nat :: Loaded(m) && FirstMissing(m, i) ==>
              row.error == Some("missing required template variable: " + m.template.value.value[i])
    ensures Loaded(m) && !Sendable(m) && (forall i: nat :: !FirstMissing(m, i)) ==>
              m.renderError.Some? && row.error == Some("template render error: " + m.renderError.value)
  {
    sends := 0;
    if m.templateName.None? || m.templateName.value == "" {
      return Failed("no email template specified"), 0;
    }
    if m.template.None? {
      return Failed("template not found: " + m.templateName.value), 0;
    }
    if m.userVars.None? {
      return Failed("invalid email_vars JSON"), 0;
    }
    if m.event.None? {
      return Failed("failed to load event: " + m.eventId), 0;
    }
    var vars := MergeEmailVars(m.userVars.value, m.notification, m.event.value);
    if m.template.value.None? {
      return Failed("template has invalid required_vars"), 0;
    }
    var required := m.template.value.value;
    for i := 0 to |required|
      invariant forall j :: 0 <= j < i ==> WalkPath(vars, required[j])
    {
      if !WalkPath(vars, required[i]) {
        assert FirstMissing(m, i) && forall j: nat | FirstMissing(m, j) :: j == i;
        return Failed("missing required template variable: " + required[i]), 0;
      }
    }
    if m.renderError.Some? {
      return Failed("template render error: " + m.renderError.value), 0;
    }
    sends := 1;
    if m.sendError.Some? {
      return Failed(m.sendError.value), 1;
    }
    row := Outcome("sent", 1, "", None);
  }

  /** The row of a delivery that did not go out. */
  function Failed(reason: string): Outcome {
    Outcome("failed", 1, "", Some(reason))
  }
}
