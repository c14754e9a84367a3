/** When an address is accepted (smtpapi/parse.go), by the parts it is made of rather than by the steps of
    the parser. */
module RecipientParts {
  import opened Common
  import opened Recipient

  predicate Blank(s: string) {
    forall c :: c in s ==> IsSpace(c)
  }

  /** An address taken apart: white space, a bracket at most, the local part, '@', the domain, a bracket
      at most, white space. */
  datatype Parts = Parts(front: string, opening: string, local: string, domain: string, closing: string, back: string)

  function Whole(p: Parts): string {
    p.front + (p.opening + (p.local + "@" + p.domain) + p.closing) + p.back
  }

  /** The parts are the widest white space and brackets, and the last '@'. */
  predicate Proper(p: Parts) {
    && Blank(p.front) && Blank(p.back) && '@' !in p.domain
    && (p.opening == "<" || (p.opening == "" && (p.local != "" ==> p.local[0] != '<' && !IsSpace(p.local[0]))))
    && (p.closing == ">" || (p.closing == "" && CleanEnd(p.domain)))
  }

  /** Two texts that differ in the case of their characters only. */
  predicate SameButCase(cs: Casing, s: string, t: string) {
    |s| == |t| && forall i :: 0 <= i < |s| ==> cs.fold(s[i]) == cs.fold(t[i])
  }

  /** What stands before the first '+'. */
  predicate LeadsLocal(group: string, local: string) {
    '+' !in group && (local == group || (|group| < |local| && local[..|group|] == group && local[|group|] == '+'))
  }

  lemma {:induction false} TrimLeftSplits(s: string) returns (front: string)
    ensures Blank(front) && s == front + TrimLeft(s)
  {
    front := "";
    if s != "" && IsSpace(s[0]) {
      var tail := s[1..];
      var rest := TrimLeftSplits(tail);
      front := [s[0]] + rest;
      assert s == [s[0]] + tail == [s[0]] + (rest + TrimLeft(tail));
      assert TrimLeft(s) == TrimLeft(tail);
    }
  }

  lemma TrimRightSplits(s: string) returns (back: string)
    ensures Blank(back) && s == TrimRight(s) + back
  {
    var n := |TrimRight(s)|;
    back := s[n..];
    assert s == s[..n] + back;
  }

  /** Trimming takes white space off both ends and nothing else. */
  lemma TrimExact(s: string) returns (front: string, back: string)
    ensures Blank(front) && Blank(back) && s == front + Trim(s) + back && Trimmed(Trim(s))
  {
    front := TrimLeftSplits(s);
    back := TrimRightSplits(TrimLeft(s));
    JoinThree(front, Trim(s), back);
    TrimFacts(s);
  }

  lemma JoinThree(x: string, y: string, z: string)
    ensures x + (y + z) == x + y + z
  {
  }

  lemma {:induction false} TrimLeftOf(front: string, s: string)
    requires Blank(front) && (s != "" ==> !IsSpace(s[0]))
    ensures TrimLeft(front + s) == s
  {
    if front == "" {
      assert front + s == s;
    } else {
      assert front[0] in front && (front + s)[1..] == front[1..] + s;
      TrimLeftOf(front[1..], s);
    }
  }

  lemma {:induction false} TrimRightOf(s: string, back: string)
    requires Blank(back) && (s != "" ==> !IsSpace(s[|s| - 1]))
    ensures TrimRight(s + back) == s
  {
    if back == "" {
      assert s + back == s;
    } else {
      var n := |back| - 1;
      assert back[n] in back && (s + back)[..|s| + n] == s + back[..n];
      TrimRightOf(s, back[..n]);
    }
  }

  lemma TrimOf(front: string, s: string, back: string)
    requires Blank(front) && Blank(back) && s != "" && Trimmed(s)
    ensures Trim(front + s + back) == s
  {
    assert front + s + back == front + (s + back);
    TrimLeftOf(front, s + back);
    TrimRightOf(s, back);
  }

  lemma StripAround(opening: string, core: string, closing: string)
    requires core != "" && (opening == "<" || (opening == "" && core[0] != '<')) && (closing == ">" || (closing == "" && core[|core| - 1] != '>'))
    ensures StripClose(StripOpen(opening + core + closing)) == core
  {
    var inner := opening + core + closing;
    assert inner[0] == if opening == "" then core[0] else '<';
    assert StripOpen(inner) == core + closing;
    assert (core + closing)[|core + closing| - 1] == if closing == "" then core[|core| - 1] else '>';
    assert (core + closing)[..|core|] == core;
  }

  lemma TrimmedAround(opening: string, core: string, closing: string)
    requires core != "" && (opening == "<" || (opening == "" && !IsSpace(core[0]))) && (closing == ">" || (closing == "" && !IsSpace(core[|core| - 1])))
    ensures Trimmed(opening + core + closing)
  {
    var inner := opening + core + closing;
    assert inner[0] == if opening == "" then core[0] else '<';
    assert inner[|inner| - 1] == if closing == "" then core[|core| - 1] else '>';
  }

  lemma EndsOfCore(local: string, domain: string)
    ensures var core := local + "@" + domain;
            && core[0] == (if local == "" then '@' else local[0])
            && core[|core| - 1] == (if domain == "" then '@' else domain[|domain| - 1])
  {
  }

  lemma CleanedParts(p: Parts)
    requires Proper(p)
    ensures StripClose(StripOpen(Trim(Whole(p)))) == p.local + "@" + p.domain
  {
    var core := p.local + "@" + p.domain;
    EndsOfCore(p.local, p.domain);
    TrimmedAround(p.opening, core, p.closing);
    TrimOf(p.front, p.opening + core + p.closing, p.back);
    StripAround(p.opening, core, p.closing);
  }

  lemma {:induction false} FirstFieldLeads(local: string, group: string)
    requires LeadsLocal(group, local)
    ensures SplitPlus(local)[0] == group
  {
    if local == group {
      SplitPiece(group, "");
    } else {
      assert local == group + "+" + local[|group| + 1..];
      SplitPiece(group, local[|group| + 1..]);
    }
  }

  lemma {:induction false} SplitExact(s: string)
    ensures SplitPlus(s)[0] + PrintChannels(SplitPlus(s)[1..]) == s
  {
    if s != "" {
      SplitExact(s[1..]);
      var rest := SplitPlus(s[1..]);
      if s[0] == '+' {
        assert ([""] + rest)[1..] == rest;
      } else {
        assert ([[s[0]] + rest[0]] + rest[1..])[1..] == rest[1..];
      }
      assert s == [s[0]] + s[1..];
    }
  }

  lemma BlankTrims(s: string)
    ensures Trim(s) == "" <==> Blank(s)
  {
    var front, back := TrimExact(s);
    if Trim(s) != "" {
      assert s[|front|] == Trim(s)[0] && s[|front|] in s;
    }
  }

  lemma FoldIsSameButCase(cs: Casing, s: string, t: string)
    ensures EqualFold(cs, s, t) <==> SameButCase(cs, s, t)
  {
    if EqualFold(cs, s, t) {
      assert |s| == |t|;
      forall i | 0 <= i < |s| ensures cs.fold(s[i]) == cs.fold(t[i]) {
        assert Map(cs.fold, s)[i] == Map(cs.fold, t)[i];
      }
    }
  }

  /** What becomes of an address, by its parts: accepted if and only if its domain differs from the
      expected one in case only and something other than white space stands before its first '+'. */
  lemma AcceptedIff(cs: Casing, p: Parts, group: string, expected: string)
    requires Proper(p) && LeadsLocal(group, p.local)
    ensures var r := Parse(cs, Whole(p), expected);
            && (r.Ok? <==> SameButCase(cs, p.domain, expected) && !Blank(group))
            && (r == Err(WrongDomain) <==> !SameButCase(cs, p.domain, expected))
            && (r == Err(EmptyGroup) <==> SameButCase(cs, p.domain, expected) && Blank(group))
            && (r.Ok? ==> exists front, back :: Blank(front) && Blank(back) && group == front + r.value.group + back)
  {
    CleanedParts(p);
    ParseCleaned(cs, Whole(p), expected, p.local, p.domain);
    FoldIsSameButCase(cs, p.domain, expected);
    FirstFieldLeads(p.local, group);
    BlankTrims(group);
    var front, back := TrimExact(group);
  }

  lemma OpeningOf(s: string) returns (opening: string)
    ensures s == opening + StripOpen(s)
    ensures opening == "<" || (opening == "" && (s != "" ==> s[0] != '<'))
  {
    if s != "" && s[0] == '<' {
      opening := [s[0]];
      assert s == [s[0]] + s[1..];
    } else {
      opening := "";
    }
  }

  lemma ClosingOf(s: string) returns (closing: string)
    ensures s == StripClose(s) + closing
    ensures closing == ">" || (closing == "" && (s != "" ==> s[|s| - 1] != '>'))
  {
    if s != "" && s[|s| - 1] == '>' {
      closing := [s[|s| - 1]];
      assert s == s[..|s| - 1] + [s[|s| - 1]];
    } else {
      closing := "";
    }
  }

  /** Every address with an '@' has such parts. */
  lemma HasParts(address: string) returns (p: Parts, group: string)
    requires '@' in address
    ensures Proper(p) && Whole(p) == address && LeadsLocal(group, p.local)
  {
    var front, back := TrimExact(address);
    var opening := OpeningOf(Trim(address));
    var closing := ClosingOf(StripOpen(Trim(address)));
    var core := StripClose(StripOpen(Trim(address)));
    JoinThree(opening, core, closing);
    KeepsAt(front, opening, core, closing, back);
    var local, domain := SplitAt(core);
    EndsOfCore(local, domain);
    EndsOfInner(opening, core, closing);
    p := Parts(front, opening, local, domain, closing, back);
    group := LeadingField(local);
  }

  lemma EndsOfInner(opening: string, core: string, closing: string)
    requires core != ""
    ensures var inner := opening + core + closing;
            && (opening == "" ==> inner[0] == core[0]) && (closing == "" ==> inner[|inner| - 1] == core[|core| - 1])
  {
  }

  lemma SplitAt(core: string) returns (local: string, domain: string)
    requires '@' in core
    ensures core == local + "@" + domain && '@' !in domain
  {
    var at := LastAt(core).value;
    local, domain := core[..at], core[at + 1..];
  }

  lemma LeadingField(local: string) returns (group: string)
    ensures LeadsLocal(group, local)
  {
    var fields := SplitPlus(local);
    group := fields[0];
    SplitFields(local);
    SplitExact(local);
    if fields[1..] == [] {
      assert local == group + "" == group;
    } else {
      assert local == group + ("+" + fields[1..][0] + PrintChannels(fields[1..][1..]));
    }
  }

  lemma KeepsAt(front: string, opening: string, core: string, closing: string, back: string)
    requires Blank(front) && Blank(back) && opening in ["", "<"] && closing in ["", ">"]
    requires '@' in front + (opening + core + closing) + back
    ensures '@' in core
  {
  }

  /** One without an '@' is refused for that, and no other. */
  lemma MissingDomainIff(cs: Casing, address: string, expected: string)
    ensures Parse(cs, address, expected) == Err(MissingDomain) <==> '@' !in address
  {
    if '@' in address {
      var p, group := HasParts(address);
      AcceptedIff(cs, p, group, expected);
    } else {
      TrimFacts(address);
    }
  }

  /** The answer does not change with the case of the address's domain or of the expected one, nor with
      brackets and white space around the address. */
  lemma CaseOfDomainIsIrrelevant(cs: Casing, p: Parts, q: Parts, expected1: string, expected2: string)
    requires Proper(p) && Proper(q) && p.local == q.local
    requires SameButCase(cs, p.domain, q.domain) && SameButCase(cs, expected1, expected2)
    ensures Parse(cs, Whole(p), expected1) == Parse(cs, Whole(q), expected2)
  {
    CleanedParts(p);
    CleanedParts(q);
    ParseCleaned(cs, Whole(p), expected1, p.local, p.domain);
    ParseCleaned(cs, Whole(q), expected2, q.local, q.domain);
    FoldIsSameButCase(cs, p.domain, expected1);
    FoldIsSameButCase(cs, q.domain, expected2);
  }
}
