/** RCPT TO addresses (smtpapi/parse.go): "group+channel+channel@domain", its parser, the printer
    that inverts it, and exactly when the round trip holds. Text is a sequence of Unicode characters;
    the two case tables the parser consults are parameters. */
module Recipient {
  import opened Common

  // ----- The string functions the parser uses -----

  /** Unicode white space. */
  predicate IsSpace(c: char) {
    || c == ' ' || '\t' <= c <= '\r' || c == '\U{85}' || c == '\U{A0}' || c == '\U{1680}' || '\U{2000}' <= c <= '\U{200A}'
    || c == '\U{2028}' || c == '\U{2029}' || c == '\U{202F}' || c == '\U{205F}' || c == '\U{3000}'
  }

  /** Unicode's tables: the lower case of a character, and one representative for all the characters
      it folds to. */
  datatype Casing = Casing(lower: char -> char, fold: char -> char)

  /** What is used of them: lower case is final, neither creates nor removes white space or '+', and
      '@' folds to nothing else. */
  ghost predicate Sane(cs: Casing) {
    && (forall c :: cs.lower(cs.lower(c)) == cs.lower(c))
    && (forall c :: (cs.lower(c) == '+' <==> c == '+') && (IsSpace(cs.lower(c)) <==> IsSpace(c)))
    && (forall c :: cs.fold(c) == '@' <==> c == '@')
  }

  function Map(f: char -> char, s: string): (r: string)
    ensures |r| == |s|
  {
    seq(|s|, i requires 0 <= i < |s| => f(s[i]))
  }

  function Lower(cs: Casing, s: string): (r: string)
    ensures |r| == |s|
  {
    Map(cs.lower, s)
  }

  predicate EqualFold(cs: Casing, s: string, t: string) {
    Map(cs.fold, s) == Map(cs.fold, t)
  }

  function TrimLeft(s: string): (r: string)
    ensures |r| <= |s|
    ensures r != "" ==> !IsSpace(r[0])
  {
    if s != "" && IsSpace(s[0]) then TrimLeft(s[1..]) else s
  }

  function TrimRight(s: string): (r: string)
    ensures |r| <= |s| && r == s[..|r|]
    ensures r != "" ==> !IsSpace(r[|r| - 1])
    ensures forall i :: |r| <= i < |s| ==> IsSpace(s[i])
  {
    if s != "" && IsSpace(s[|s| - 1]) then TrimRight(s[..|s| - 1]) else s
  }

  function Trim(s: string): string {
    TrimRight(TrimLeft(s))
  }

  predicate Trimmed(s: string) {
    s != "" ==> !IsSpace(s[0]) && !IsSpace(s[|s| - 1])
  }

  function StripOpen(s: string): string {
    if s != "" && s[0] == '<' then s[1..] else s
  }

  function StripClose(s: string): string {
    if s != "" && s[|s| - 1] == '>' then s[..|s| - 1] else s
  }

  /** The position of the last '@', if any. */
  function LastAt(s: string): (r: Option<nat>)
    ensures r.Some? ==> r.value < |s| && s[r.value] == '@' && '@' !in s[r.value + 1..]
    ensures r.None? ==> '@' !in s
  {
    if s == "" then None
    else if s[|s| - 1] == '@' then Some(|s| - 1)
    else LastAt(s[..|s| - 1])
  }

  /** The pieces between plus signs; always at least one. */
  function SplitPlus(s: string): (fields: seq<string>)
    ensures fields != []
  {
    if s == "" then [""]
    else if s[0] == '+' then [""] + SplitPlus(s[1..])
    else var rest := SplitPlus(s[1..]); [[s[0]] + rest[0]] + rest[1..]
  }

  // ----- The parser -----

  datatype Parsed = Parsed(group: string, channels: seq<string>)

  datatype ParseError = MissingDomain | WrongDomain | EmptyGroup

  function Normal(cs: Casing, field: string): string {
    Lower(cs, Trim(field))
  }

  /** The channel names of the fields: normalised, empties skipped, first occurrences only. */
  function Channels(cs: Casing, fields: seq<string>): seq<string> {
    if fields == [] then []
    else
      var before := Channels(cs, fields[..|fields| - 1]);
      var ch := Normal(cs, fields[|fields| - 1]);
      if ch == "" || ch in before then before else before + [ch]
  }

  function Parse(cs: Casing, address: string, expectedDomain: string): Result<Parsed, ParseError> {
    var addr := StripClose(StripOpen(Trim(address)));
    match LastAt(addr)
    case None => Err(MissingDomain)
    case Some(at) =>
      if !EqualFold(cs, addr[at + 1..], expectedDomain) then Err(WrongDomain)
      else ParseLocal(cs, addr[..at])
  }

  function ParseLocal(cs: Casing, local: string): Result<Parsed, ParseError> {
    var fields := SplitPlus(local);
    var group := Trim(fields[0]);
    if group == "" then Err(EmptyGroup) else Ok(Parsed(group, Channels(cs, fields[1..])))
  }

  /** The loop over the fields after the group. */
  method CollectChannels(cs: Casing, fields: seq<string>) returns (channels: seq<string>)
    ensures channels == Channels(cs, fields)
  {
    channels := [];
    var seen: set<string> := {};
    for i := 0 to |fields|
      invariant channels == Channels(cs, fields[..i])
      invariant seen == set c | c in channels
    {
      assert fields[..i + 1][..i] == fields[..i];
      var ch := Normal(cs, fields[i]);
      if ch != "" && ch !in seen {
        seen := seen + {ch};
        channels := channels + [ch];
      }
    }
    assert fields[..|fields|] == fields;
  }

  method ParseRecipient(cs: Casing, address: string, expectedDomain: string) returns (r: Result<Parsed, ParseError>)
    ensures r == Parse(cs, address, expectedDomain)
  {
    var addr := Trim(address);
    addr := StripOpen(addr);
    addr := StripClose(addr);
    var at := LastAt(addr);
    if at.None? {
      return Err(MissingDomain);
    }
    var local, domain := addr[..at.value], addr[at.value + 1..];
    if !EqualFold(cs, domain, expectedDomain) {
      return Err(WrongDomain);
    }
    var fields := SplitPlus(local);
    var group := Trim(fields[0]);
    var channels := CollectChannels(cs, fields[1..]);
    if group == "" {
      return Err(EmptyGroup);
    }
    r := Ok(Parsed(group, channels));
  }

  /** Each recipient with its own channels, else the fallback; the first one left without any
      rejects them all. */
  function Resolve(recipients: seq<Parsed>, fallback: seq<string>): Result<seq<Parsed>, string> {
    if recipients == [] then Ok([])
    else match Resolve(recipients[..|recipients| - 1], fallback)
         case Err(group) => Err(group)
         case Ok(resolved) =>
           var rcpt := recipients[|recipients| - 1];
           var channels := if rcpt.channels == [] then fallback else rcpt.channels;
           if channels == [] then Err(rcpt.group) else Ok(resolved + [Parsed(rcpt.group, channels)])
  }

  /** resolveTargets: all recipients pair off in order, or the first without channels is named. */
  method ResolveTargets(recipients: seq<Parsed>, fallback: seq<string>) returns (r: Result<seq<Parsed>, string>)
    ensures r.Ok? <==> fallback != [] || forall i :: 0 <= i < |recipients| ==> recipients[i].channels != []
    ensures r.Ok? ==> |r.value| == |recipients| && forall i :: 0 <= i < |recipients| ==>
                      r.value[i].group == recipients[i].group && r.value[i].channels != []
                      && r.value[i].channels == if recipients[i].channels == [] then fallback else recipients[i].channels
    ensures r.Err? ==> exists k :: 0 <= k < |recipients| && recipients[k].channels == [] && r.error == recipients[k].group
                                   && forall i :: 0 <= i < k ==> recipients[i].channels != []
    ensures r == Resolve(recipients, fallback)
  {
    var resolved: seq<Parsed> := [];
    for i := 0 to |recipients|
      invariant |resolved| == i
      invariant forall j :: 0 <= j < i ==> fallback != [] || recipients[j].channels != []
      invariant forall j :: 0 <= j < i ==>
                  resolved[j].group == recipients[j].group && resolved[j].channels != []
                  && resolved[j].channels == if recipients[j].channels == [] then fallback else recipients[j].channels
      invariant Resolve(recipients[..i], fallback) == Ok(resolved)
    {
      assert recipients[..i + 1][..i] == recipients[..i];
      var channels := recipients[i].channels;
      if |channels| == 0 {
        channels := fallback;
      }
      if |channels| == 0 {
        ResolveFails(recipients, fallback, i + 1);
        return Err(recipients[i].group);
      }
      resolved := resolved + [Parsed(recipients[i].group, channels)];
    }
    assert recipients[..|recipients|] == recipients;
    r := Ok(resolved);
  }

  lemma {:induction false} ResolveFails(recipients: seq<Parsed>, fallback: seq<string>, n: nat)
    requires n <= |recipients| && Resolve(recipients[..n], fallback).Err?
    ensures Resolve(recipients, fallback) == Resolve(recipients[..n], fallback)
    decreases |recipients| - n
  {
    if n < |recipients| {
      assert recipients[..n + 1][..n] == recipients[..n];
      ResolveFails(recipients, fallback, n + 1);
    } else {
      assert recipients[..n] == recipients;
    }
  }

  // ----- What every successful parse yields -----

  ghost predicate ChannelOk(cs: Casing, ch: string) {
    ch != "" && Trimmed(ch) && Lower(cs, ch) == ch && '+' !in ch
  }

  ghost predicate WellFormed(cs: Casing, r: Parsed) {
    && r.group != "" && Trimmed(r.group) && '+' !in r.group
    && Distinct(r.channels) && forall ch :: ch in r.channels ==> ChannelOk(cs, ch)
  }

  lemma {:induction false} SplitFields(s: string)
    ensures forall f :: f in SplitPlus(s) ==> '+' !in f
  {
    if s != "" {
      SplitFields(s[1..]);
      var rest := SplitPlus(s[1..]);
      assert rest[0] in rest;
      if s[0] != '+' {
        assert '+' !in [s[0]] + rest[0];
        assert forall f :: f in rest[1..] ==> f in rest;
      }
    }
  }

  lemma {:induction false} TrimLeftKeeps(s: string)
    ensures forall c :: c in TrimLeft(s) ==> c in s
    ensures TrimLeft(s) != "" ==> TrimLeft(s)[|TrimLeft(s)| - 1] == s[|s| - 1]
    ensures s != "" && !IsSpace(s[0]) ==> TrimLeft(s) == s
  {
    if s != "" && IsSpace(s[0]) {
      TrimLeftKeeps(s[1..]);
    }
  }

  lemma {:induction false} TrimRightKeeps(s: string)
    ensures TrimRight(s) != "" ==> TrimRight(s)[0] == s[0]
    ensures s != "" && !IsSpace(s[|s| - 1]) ==> TrimRight(s) == s
  {
    if s != "" && IsSpace(s[|s| - 1]) {
      TrimRightKeeps(s[..|s| - 1]);
    }
  }

  lemma TrimFacts(s: string)
    ensures Trimmed(Trim(s)) && |Trim(s)| <= |s|
    ensures forall c :: c in Trim(s) ==> c in s
    ensures Trimmed(s) ==> Trim(s) == s
  {
    TrimLeftKeeps(s);
    TrimRightKeeps(TrimLeft(s));
    if Trimmed(s) && s != "" {
      TrimRightKeeps(s);
    }
  }

  lemma NormalOk(cs: Casing, field: string)
    requires Sane(cs)
    requires '+' !in field && Normal(cs, field) != ""
    ensures ChannelOk(cs, Normal(cs, field))
  {
    TrimFacts(field);
    var t := Trim(field);
    forall i | 0 <= i < |t| ensures Lower(cs, t)[i] != '+' && Lower(cs, Lower(cs, t))[i] == Lower(cs, t)[i] {
      assert t[i] in t && cs.lower(t[i]) == Lower(cs, t)[i];
    }
    assert Lower(cs, Lower(cs, t)) == Lower(cs, t);
    assert IsSpace(Lower(cs, t)[0]) <==> IsSpace(t[0]);
    assert IsSpace(Lower(cs, t)[|t| - 1]) <==> IsSpace(t[|t| - 1]);
  }

  lemma {:induction false} ChannelsOk(cs: Casing, fields: seq<string>)
    requires Sane(cs)
    requires forall f :: f in fields ==> '+' !in f
    ensures Distinct(Channels(cs, fields)) && forall ch :: ch in Channels(cs, fields) ==> ChannelOk(cs, ch)
  {
    if fields != [] {
      ChannelsOk(cs, fields[..|fields| - 1]);
      if Normal(cs, fields[|fields| - 1]) != "" {
        NormalOk(cs, fields[|fields| - 1]);
      }
    }
  }

  /** The fields normalised, empty ones left out. */
  function NamedFields(cs: Casing, fields: seq<string>): seq<string> {
    if fields == [] then []
    else
      NamedFields(cs, fields[..|fields| - 1])
      + (if Normal(cs, fields[|fields| - 1]) == "" then [] else [Normal(cs, fields[|fields| - 1])])
  }

  /** The channels are the named fields, each once, in the order of their first occurrences. */
  lemma {:induction false} ChannelsAreFirstOccurrences(cs: Casing, fields: seq<string>)
    ensures Channels(cs, fields) == FirstOccurrences(NamedFields(cs, fields))
  {
    if fields != [] {
      var before, ch := NamedFields(cs, fields[..|fields| - 1]), Normal(cs, fields[|fields| - 1]);
      ChannelsAreFirstOccurrences(cs, fields[..|fields| - 1]);
      if ch == "" {
        assert before + [] == before;
      } else {
        FirstOccurrencesNext(before, ch);
        FirstOccurrencesDistinct(before);
      }
    }
  }

  /** What a successful parse returns, by the parts of the address. */
  lemma ParsedByParts(cs: Casing, address: string, domain: string)
    requires Parse(cs, address, domain).Ok?
    ensures var addr := StripClose(StripOpen(Trim(address)));
            LastAt(addr).Some? && EqualFold(cs, addr[LastAt(addr).value + 1..], domain)
            && var fields := SplitPlus(addr[..LastAt(addr).value]);
               Parse(cs, address, domain).value == Parsed(Trim(fields[0]), FirstOccurrences(NamedFields(cs, fields[1..])))
  {
    var addr := StripClose(StripOpen(Trim(address)));
    ChannelsAreFirstOccurrences(cs, SplitPlus(addr[..LastAt(addr).value])[1..]);
  }

  /** A successful parse yields a non-empty trimmed group and distinct, lowercase, trimmed,
      non-empty channels, none containing '+', and its domain has no '@'. */
  lemma ParseYieldsNormalForm(cs: Casing, address: string, domain: string)
    requires Sane(cs)
    requires Parse(cs, address, domain).Ok?
    ensures WellFormed(cs, Parse(cs, address, domain).value)
    ensures '@' !in domain
  {
    var addr := StripClose(StripOpen(Trim(address)));
    var at := LastAt(addr).value;
    var fields := SplitPlus(addr[..at]);
    SplitFields(addr[..at]);
    TrimFacts(fields[0]);
    assert fields[0] in fields;
    assert forall f :: f in fields[1..] ==> f in fields;
    ChannelsOk(cs, fields[1..]);
    FoldKeepsAt(cs, addr[at + 1..], domain);
  }

  lemma FoldKeepsAt(cs: Casing, s: string, t: string)
    requires Sane(cs)
    requires EqualFold(cs, s, t) && '@' !in s
    ensures '@' !in t && |s| == |t|
  {
    forall i | 0 <= i < |t| ensures t[i] != '@' {
      assert Map(cs.fold, s)[i] == Map(cs.fold, t)[i];
      assert s[i] in s;
    }
  }

  // ----- The printer and the round trip -----

  function PrintChannels(channels: seq<string>): string {
    if channels == [] then "" else "+" + channels[0] + PrintChannels(channels[1..])
  }

  function Print(r: Parsed, domain: string): string {
    r.group + PrintChannels(r.channels) + "@" + domain
  }

  lemma {:induction false} SplitPiece(piece: string, rest: string)
    requires '+' !in piece
    ensures SplitPlus(piece + "+" + rest) == [piece] + SplitPlus(rest)
    ensures SplitPlus(piece) == [piece]
  {
    if piece == "" {
      assert piece + "+" + rest == "+" + rest;
      assert ("+" + rest)[1..] == rest;
    } else {
      SplitPiece(piece[1..], rest);
      assert (piece + "+" + rest)[1..] == piece[1..] + "+" + rest;
      assert [piece[0]] + piece[1..] == piece;
    }
  }

  lemma {:induction false} SplitPrinted(head: string, channels: seq<string>)
    requires '+' !in head && forall ch :: ch in channels ==> '+' !in ch
    ensures SplitPlus(head + PrintChannels(channels)) == [head] + channels
    decreases |channels|
  {
    if channels == [] {
      SplitPiece(head, "");
      assert head + PrintChannels(channels) == head;
    } else {
      var rest := channels[0] + PrintChannels(channels[1..]);
      SplitPrinted(channels[0], channels[1..]);
      SplitPiece(head, rest);
      assert head + PrintChannels(channels) == head + "+" + rest;
      assert [head] + channels == [head] + ([channels[0]] + channels[1..]);
    }
  }

  lemma {:induction false} NormalChannelsFixed(cs: Casing, channels: seq<string>)
    requires Distinct(channels) && forall ch :: ch in channels ==> ChannelOk(cs, ch)
    ensures Channels(cs, channels) == channels
  {
    if channels != [] {
      var n := |channels| - 1;
      NormalChannelsFixed(cs, channels[..n]);
      assert ChannelOk(cs, channels[n]);
      TrimFacts(channels[n]);
      assert channels[n] !in channels[..n];
    }
  }

  /** Reading back a printed local part. */
  lemma LocalRoundTrip(cs: Casing, r: Parsed)
    requires WellFormed(cs, r)
    ensures ParseLocal(cs, r.group + PrintChannels(r.channels)) == Ok(r)
  {
    SplitPrinted(r.group, r.channels);
    TrimFacts(r.group);
    NormalChannelsFixed(cs, r.channels);
    assert ([r.group] + r.channels)[1..] == r.channels;
  }

  lemma {:induction false} LastAtPrinted(local: string, domain: string)
    requires '@' !in domain
    ensures LastAt(local + "@" + domain) == Some(|local|)
  {
    var s := local + "@" + domain;
    if domain != "" {
      assert s[|s| - 1] == domain[|domain| - 1];
      assert s[..|s| - 1] == local + "@" + domain[..|domain| - 1];
      LastAtPrinted(local, domain[..|domain| - 1]);
    }
  }

  /** A domain that survives the clean-up at the end of an address. */
  predicate CleanEnd(domain: string) {
    domain != "" ==> !IsSpace(domain[|domain| - 1]) && domain[|domain| - 1] != '>'
  }

  lemma PrintedEnds(cs: Casing, r: Parsed, domain: string)
    requires WellFormed(cs, r)
    ensures var s := Print(r, domain);
            s != "" && s[0] == r.group[0] && s[|s| - 1] == if domain == "" then '@' else domain[|domain| - 1]
  {
  }

  /** The clean-up leaves a printed address alone when its two ends are clean. */
  lemma CleanUpIsIdentity(s: string)
    requires s != "" && Trimmed(s) && s[0] != '<' && s[|s| - 1] != '>'
    ensures StripClose(StripOpen(Trim(s))) == s
  {
    TrimFacts(s);
  }

  lemma RoundTripHolds(cs: Casing, r: Parsed, domain: string)
    requires WellFormed(cs, r) && r.group[0] != '<' && '@' !in domain && CleanEnd(domain)
    ensures Parse(cs, Print(r, domain), domain) == Ok(r)
  {
    var local := r.group + PrintChannels(r.channels);
    PrintedEnds(cs, r, domain);
    CleanUpIsIdentity(Print(r, domain));
    LastAtPrinted(local, domain);
    CutAt(local, domain);
    LocalRoundTrip(cs, r);
  }

  lemma CutAt(local: string, domain: string)
    ensures var s := local + "@" + domain; s[..|local|] == local && s[|local| + 1..] == domain
  {
  }

  /** The cleaned-up form of a printed address is a slice of it that still contains the '@' before
      the domain; with a dirty end it stops short of the domain's end. */
  lemma CleanUpIsSlice(cs: Casing, r: Parsed, domain: string) returns (k: nat, n: nat)
    requires WellFormed(cs, r)
    ensures var s := Print(r, domain);
            var sep := |s| - |domain| - 1;
            k <= sep < n <= |s| && s[sep] == '@' && StripClose(StripOpen(Trim(s))) == s[k..n]
            && (!CleanEnd(domain) ==> n < |s|) && k == if r.group[0] == '<' then 1 else 0
  {
    var s := Print(r, domain);
    var sep := |s| - |domain| - 1;
    PrintedEnds(cs, r, domain);
    TrimLeftKeeps(s);
    var m := |TrimRight(s)|;
    assert s[sep] == '@' && Trim(s) == s[..m] && m > sep;
    k := if r.group[0] == '<' then 1 else 0;
    assert StripOpen(s[..m]) == s[k..m];
    n := if s[m - 1] == '>' then m - 1 else m;
    assert StripClose(s[k..m]) == s[k..n];
  }

  lemma StripFront(group: string, rest: string, k: nat)
    requires group != "" && k == if group[0] == '<' then 1 else 0
    ensures (group + rest)[k..] == StripOpen(group) + rest
  {
  }

  lemma PrefixHasNoAt(domain: string, m: nat)
    requires '@' !in domain && m <= |domain|
    ensures '@' !in domain[..m]
  {
  }

  /** The same slice by its parts: a possibly shortened group and a possibly shortened domain. */
  lemma CleanUpParts(cs: Casing, r: Parsed, domain: string) returns (kept: string)
    requires WellFormed(cs, r) && '@' !in domain
    ensures '@' !in kept && (CleanEnd(domain) || |kept| < |domain|)
    ensures StripClose(StripOpen(Trim(Print(r, domain)))) == StripOpen(r.group) + PrintChannels(r.channels) + "@" + kept
  {
    var channels := PrintChannels(r.channels);
    var local := r.group + channels;
    var k, n := CleanUpIsSlice(cs, r, domain);
    var m := n - |local| - 1;
    kept := domain[..m];
    PrefixHasNoAt(domain, m);
    SliceParts(local, domain, k, n);
    StripFront(r.group, channels, k);
  }

  lemma SliceParts(local: string, domain: string, k: nat, n: nat)
    requires k <= |local| < n <= |local| + 1 + |domain|
    ensures (local + "@" + domain)[k..n] == local[k..] + "@" + domain[..n - |local| - 1]
  {
  }

  /** How an already cleaned address is read. */
  lemma ParseCleaned(cs: Casing, address: string, domain: string, local: string, kept: string)
    requires '@' !in kept && StripClose(StripOpen(Trim(address))) == local + "@" + kept
    ensures Parse(cs, address, domain) == if EqualFold(cs, kept, domain) then ParseLocal(cs, local) else Err(WrongDomain)
  {
    LastAtPrinted(local, kept);
    CutAt(local, kept);
  }

  /** With a domain that ends in white space or '>', printed addresses never parse back. */
  lemma DirtyEndFails(cs: Casing, r: Parsed, domain: string)
    requires WellFormed(cs, r) && '@' !in domain && !CleanEnd(domain)
    ensures Parse(cs, Print(r, domain), domain) != Ok(r)
  {
    var kept := CleanUpParts(cs, r, domain);
    ParseCleaned(cs, Print(r, domain), domain, StripOpen(r.group) + PrintChannels(r.channels), kept);
    assert |Map(cs.fold, kept)| < |Map(cs.fold, domain)|;
  }

  /** A group that starts with '<' loses it. */
  lemma OpenBracketFails(cs: Casing, r: Parsed, domain: string)
    requires WellFormed(cs, r) && r.group[0] == '<' && '@' !in domain
    ensures Parse(cs, Print(r, domain), domain) != Ok(r)
  {
    var kept := CleanUpParts(cs, r, domain);
    ParseCleaned(cs, Print(r, domain), domain, r.group[1..] + PrintChannels(r.channels), kept);
    SplitPrinted(r.group[1..], r.channels);
    TrimFacts(r.group[1..]);
  }

  /** A domain with an '@' in it matches no address at all. */
  lemma AtInDomainFails(cs: Casing, address: string, domain: string)
    requires Sane(cs)
    requires '@' in domain
    ensures Parse(cs, address, domain).Err?
  {
    if Parse(cs, address, domain).Ok? {
      ParseYieldsNormalForm(cs, address, domain);
    }
  }

  /** The round trip, exactly: a well-formed recipient survives printing and parsing if and only if
      its group does not start with '<' and the domain has no '@' and a clean end. */
  lemma RoundTripIff(cs: Casing, r: Parsed, domain: string)
    requires Sane(cs)
    requires WellFormed(cs, r)
    ensures Parse(cs, Print(r, domain), domain) == Ok(r) <==> r.group[0] != '<' && '@' !in domain && CleanEnd(domain)
  {
    if '@' in domain {
      AtInDomainFails(cs, Print(r, domain), domain);
    } else if !CleanEnd(domain) {
      DirtyEndFails(cs, r, domain);
    } else if r.group[0] == '<' {
      OpenBracketFails(cs, r, domain);
    } else {
      RoundTripHolds(cs, r, domain);
    }
  }

  /** So printing and parsing again is the identity on what a parse produced, except for a group
      that still starts with '<' (or a domain configured with a dirty end). */
  lemma ParsePrintParse(cs: Casing, address: string, domain: string)
    requires Sane(cs)
    requires Parse(cs, address, domain).Ok?
    ensures var r := Parse(cs, address, domain).value;
            Parse(cs, Print(r, domain), domain) == Ok(r) <==> r.group[0] != '<' && CleanEnd(domain)
  {
    ParseYieldsNormalForm(cs, address, domain);
    RoundTripIff(cs, Parse(cs, address, domain).value, domain);
  }

  /** The exception is real: two opening brackets leave one behind, which the next parse strips. */
  lemma DoubleBracketExample(cs: Casing)
    requires Sane(cs)
    ensures Parse(cs, "<<a@d", "d") == Ok(Parsed("<a", []))
    ensures Parse(cs, Print(Parsed("<a", []), "d"), "d") != Ok(Parsed("<a", []))
  {
    DoubleBracketParse(cs);
    ParseYieldsNormalForm(cs, "<<a@d", "d");
    OpenBracketFails(cs, Parsed("<a", []), "d");
  }

  lemma DoubleBracketParse(cs: Casing)
    ensures Parse(cs, "<<a@d", "d") == Ok(Parsed("<a", []))
  {
    TrimFacts("<<a@d");
    assert StripOpen("<<a@d") == "<a" + "@" + "d" == StripClose("<a" + "@" + "d");
    ParseCleaned(cs, "<<a@d", "d", "<a", "d");
    SplitPiece("<a", "");
    TrimFacts("<a");
  }
}
