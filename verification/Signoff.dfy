/** Sign-offs (scripts/signoff_from_pr.py, lines 59-144), the ledger guard (scripts/check_signoff_ledger.py) and signed
    features. */
module Signoff {
  import opened Text

  const KINDS: set<string> := {"决策签字", "效果验收", "双签"}

  /** `covers` as YAML gives it: a list (an absent or empty value counts as one), or something else. */
  datatype Covers = Listed(items: seq<string>) | NotAList

  datatype Block = Block(scope: string, kind: string, decisionOnly: bool, covers: Covers)

  datatype Event = Event(merged: bool, labels: seq<string>, block: Option<Block>, approvers: seq<string>,
                         mergedAt: string, number: string, url: string)

  datatype Ledger = Ledger(scope: string, signedBy: string, date: string, kind: string, evidence: string,
                           decisionOnly: bool, covers: Covers)

  // ----- from an event to a ledger

  const PREFIX := "signoff:"

  /** The scope in one label: `signoff:` and at least one more character, on one line. */
  function LabelScope(text: string): Option<string> {
    var s := Strip(text);
    if StartsWith(s, PREFIX) && |s| > |PREFIX| && '\n' !in s[|PREFIX|..] then Some(Strip(s[|PREFIX|..])) else None
  }

  /** The first label that names a scope decides; an empty scope is none. */
  function ScopeFromLabels(labels: seq<string>): Option<string> {
    if labels == [] then None
    else if LabelScope(labels[0]).Some? then
      if LabelScope(labels[0]).value == "" then None else LabelScope(labels[0])
    else ScopeFromLabels(labels[1..])
  }

  function StripAll(items: seq<string>): (r: seq<string>)
    ensures |r| == |items| && forall i :: 0 <= i < |items| ==> r[i] == Strip(items[i])
  {
    seq(|items|, i requires 0 <= i < |items| => Strip(items[i]))
  }

  const NO_APPROVER := "（PR approver 未取到）"

  function SignedBy(approvers: seq<string>): string {
    if approvers == [] then NO_APPROVER else Join(approvers, " + ")
  }

  function DateOf(mergedAt: string): string {
    if |mergedAt| <= 10 then mergedAt else mergedAt[..10]
  }

  function EvidenceOf(e: Event): string {
    "PR #" + e.number + " " + e.url + "（merge 自动落账 D46.d）"
  }

  /** The ledger an event signs, when it is a valid sign-off. */
  function BuildSignoff(e: Event): Option<(string, Ledger)> {
    var scope := ScopeFromLabels(e.labels);
    if !e.merged || scope == None || e.block == None then None
    else
      var b := e.block.value;
      if Strip(b.scope) != scope.value || Strip(b.kind) !in KINDS || b.covers.NotAList? then None
      else if b.decisionOnly && b.covers.items != [] then None
      else if !b.decisionOnly && b.covers.items == [] then None
      else
        Some((scope.value, Ledger(scope.value, SignedBy(e.approvers), DateOf(e.mergedAt), Strip(b.kind),
                                  EvidenceOf(e), b.decisionOnly, Listed(StripAll(b.covers.items)))))
  }

  // ----- when an event signs, and what

  /** The label asks for a sign-off: `signoff:` and more, on one line. */
  predicate Asks(text: string) {
    var s := Strip(text);
    "signoff:" <= s && |s| > 8 && forall i :: 8 <= i < |s| ==> s[i] != '\n'
  }

  /** The first label that asks names the scope, and the name is not empty. */
  predicate NamesScope(labels: seq<string>, scope: string) {
    scope != "" && exists i :: 0 <= i < |labels| && FirstAsks(labels, i) && scope == Strip(Strip(labels[i])[8..])
  }

  predicate FirstAsks(labels: seq<string>, i: nat)
    requires i < |labels|
  {
    Asks(labels[i]) && forall j :: 0 <= j < i ==> !Asks(labels[j])
  }

  lemma AsksIff(text: string)
    ensures LabelScope(text).Some? <==> Asks(text)
    ensures Asks(text) ==> LabelScope(text) == Some(Strip(Strip(text)[8..]))
  {
    var s := Strip(text);
    assert |PREFIX| == 8 && PREFIX == "signoff:";
    if |s| > 8 {
      assert '\n' !in s[8..] <==> forall i :: 8 <= i < |s| ==> s[i] != '\n' by {
        assert forall i :: 8 <= i < |s| ==> s[i] == s[8..][i - 8];
      }
    }
  }

  lemma {:induction false} NamesScopeIff(labels: seq<string>, scope: string)
    ensures ScopeFromLabels(labels) == Some(scope) <==> NamesScope(labels, scope)
  {
    if labels != [] {
      var rest := labels[1..];
      AsksIff(labels[0]);
      NamesScopeIff(rest, scope);
      if Asks(labels[0]) {
        assert FirstAsks(labels, 0) && forall i :: 0 < i < |labels| ==> !FirstAsks(labels, i);
      } else {
        forall i | 0 <= i < |rest| ensures FirstAsks(rest, i) <==> FirstAsks(labels, i + 1) {
          assert forall j :: 0 <= j < |rest| ==> rest[j] == labels[j + 1];
          assert forall j :: 0 < j < i + 1 ==> labels[j] == rest[j - 1];
        }
        if i :| 0 <= i < |labels| && FirstAsks(labels, i) { assert i > 0 && rest[i - 1] == labels[i]; }
      }
    }
  }

  /** The event is a valid sign-off of the scope: it is merged, its labels name the scope, and its block repeats the
      scope, has one of the three kinds and lists covers, none exactly when it is decision-only. */
  predicate Signs(e: Event, scope: string) {
    e.merged && NamesScope(e.labels, scope) && e.block.Some? && Strip(e.block.value.scope) == scope
    && (var kind := Strip(e.block.value.kind); kind == "决策签字" || kind == "效果验收" || kind == "双签")
    && e.block.value.covers.Listed? && (e.block.value.decisionOnly <==> |e.block.value.covers.items| == 0)
  }

  /** The ledger of an event: its scope, approvers, date and kind, and its covers without the space around them. */
  predicate Records(l: Ledger, e: Event, scope: string) {
    l.scope == scope && e.block.Some? && l.kind == Strip(e.block.value.kind)
    && l.decisionOnly == e.block.value.decisionOnly && l.covers.Listed? && e.block.value.covers.Listed?
    && |l.covers.items| == |e.block.value.covers.items|
    && (forall i :: 0 <= i < |l.covers.items| ==> l.covers.items[i] == Strip(e.block.value.covers.items[i]))
    && l.signedBy == (if |e.approvers| == 0 then "（PR approver 未取到）" else Join(e.approvers, " + "))
    && l.date <= e.mergedAt && |l.date| == (if |e.mergedAt| < 10 then |e.mergedAt| else 10)
    && l.evidence == "PR #" + e.number + " " + e.url + "（merge 自动落账 D46.d）"
  }

  /** An event gives a ledger exactly when it signs a scope, and then the ledger records it. */
  lemma BuildSignoffIff(e: Event)
    ensures forall scope :: Signs(e, scope) <==> BuildSignoff(e).Some? && BuildSignoff(e).value.0 == scope
    ensures BuildSignoff(e).Some? ==> Records(BuildSignoff(e).value.1, e, BuildSignoff(e).value.0)
  {
    forall scope ensures Signs(e, scope) <==> BuildSignoff(e).Some? && BuildSignoff(e).value.0 == scope {
      NamesScopeIff(e.labels, scope);
      if ScopeFromLabels(e.labels).Some? { NamesScopeIff(e.labels, ScopeFromLabels(e.labels).value); }
    }
  }

  /** `<scope>.signoff.yaml` files by scope. */
  type Ledgers = map<string, Ledger>

  /** What an event makes of the ledgers: it adds its own unless the scope is already signed. */
  function Land(ledgers: Ledgers, e: Event): Ledgers {
    var built := BuildSignoff(e);
    if built == None || built.value.0 in ledgers then ledgers else ledgers[built.value.0 := built.value.1]
  }

  /** A merged event with a scope is refused exactly when it signs none. */
  lemma RefusedIff(e: Event)
    ensures ScopeFromLabels(e.labels).Some? <==> exists s :: NamesScope(e.labels, s)
    ensures BuildSignoff(e).None? <==> !exists s :: Signs(e, s)
  {
    BuildSignoffIff(e);
    if ScopeFromLabels(e.labels).Some? { NamesScopeIff(e.labels, ScopeFromLabels(e.labels).value); }
    if s :| NamesScope(e.labels, s) { NamesScopeIff(e.labels, s); }
    if BuildSignoff(e).Some? { assert Signs(e, BuildSignoff(e).value.0); }
  }

  /** Landing adds exactly the ledger of the scope that the event signs, unless that scope has one. */
  lemma LandIs(ledgers: Ledgers, e: Event)
    ensures forall s :: s in Land(ledgers, e) <==> s in ledgers || Signs(e, s)
    ensures forall s :: s in ledgers ==> Land(ledgers, e)[s] == ledgers[s]
    ensures forall s :: s in Land(ledgers, e) && s !in ledgers ==> Records(Land(ledgers, e)[s], e, s)
  {
    BuildSignoffIff(e);
  }

  class LedgerDir {
    var ledgers: Ledgers

    constructor ()
      ensures ledgers == map[]
    {
      ledgers := map[];
    }

    /** `main`: 1 for a merged pull request with a scope but no valid sign-off, 0 otherwise; `check` writes nothing. */
    method Record(e: Event, check: bool) returns (code: int)
      modifies this
      ensures ledgers == if check then old(ledgers) else Land(old(ledgers), e)
      ensures code == 1 <==> e.merged && ScopeFromLabels(e.labels).Some? && BuildSignoff(e).None?
      ensures code == 0 || code == 1
      ensures code == 1 <==> e.merged && (exists s :: NamesScope(e.labels, s)) && !exists s :: Signs(e, s)
      ensures forall s :: s in ledgers <==> s in old(ledgers) || (!check && Signs(e, s))
      ensures forall s :: s in ledgers ==>
        if s in old(ledgers) then ledgers[s] == old(ledgers[s]) else Records(ledgers[s], e, s)
    {
      RefusedIff(e);
      LandIs(ledgers, e);
      var built := BuildSignoff(e);
      if built == None {
        return if e.merged && ScopeFromLabels(e.labels).Some? then 1 else 0;
      }
      var (scope, ledger) := built.value;
      if scope in ledgers {
        return 0;
      }
      if check {
        return 0;
      }
      ledgers := ledgers[scope := ledger];
      code := 0;
    }
  }

  // ----- the guard

  predicate CoversExist(items: seq<string>, files: set<string>) {
    forall i :: 0 <= i < |items| ==> EndsWith(Strip(items[i]), ".feature") && Strip(items[i]) in files
  }

  /** A ledger the guard accepts. */
  predicate LedgerOk(l: Ledger, files: set<string>) {
    Filled(l) && l.kind in KINDS && l.covers.Listed? && (l.decisionOnly <==> l.covers.items == [])
    && CoversExist(l.covers.items, files)
  }

  /** A ledger is rejected exactly when one of its texts is blank, its kind is none of the three, its covers are not a
      list or are empty although it is no mere decision or the reverse, or a cover is no existing `.feature` file. */
  lemma RejectedIff(l: Ledger, files: set<string>)
    ensures !LedgerOk(l, files) <==>
      Blank(l.scope) || Blank(l.signedBy) || Blank(l.date) || Blank(l.kind) || Blank(l.evidence)
      || (l.kind != "决策签字" && l.kind != "效果验收" && l.kind != "双签")
      || l.covers == NotAList || (l.decisionOnly && l.covers != Listed([]))
      || (!l.decisionOnly && l.covers == Listed([]))
      || exists i :: 0 <= i < |l.covers.items|
                     && !(EndsWith(Strip(l.covers.items[i]), ".feature") && Strip(l.covers.items[i]) in files)
  {
  }

  /** The fields that must not be blank. */
  predicate Filled(l: Ledger) {
    !Blank(l.scope) && !Blank(l.signedBy) && !Blank(l.date) && !Blank(l.kind) && !Blank(l.evidence)
  }

  method CheckLedger(l: Ledger, files: set<string>) returns (fails: nat, signed: nat)
    ensures fails == 0 <==> LedgerOk(l, files)
    ensures l.covers.Listed? ==> signed <= |l.covers.items|
    ensures LedgerOk(l, files) ==> signed == |l.covers.items|
  {
    fails := CheckFields(l);
    if l.kind !in KINDS {
      fails := fails + 1;
    }
    var covers := [];
    if l.covers.NotAList? {
      fails := fails + 1;
    } else {
      covers := l.covers.items;
    }
    if l.decisionOnly && covers != [] {
      fails := fails + 1;
    }
    if !l.decisionOnly && covers == [] {
      fails := fails + 1;
    }
    var wrong;
    wrong, signed := CheckCovers(covers, files);
    fails := fails + wrong;
  }

  /** The loop over the required fields. */
  method CheckFields(l: Ledger) returns (fails: nat)
    ensures fails == 0 <==> Filled(l)
  {
    fails := 0;
    var required := [l.scope, l.signedBy, l.date, l.kind, l.evidence];
    for k := 0 to |required|
      invariant fails == 0 <==> forall i :: 0 <= i < k ==> !Blank(required[i])
    {
      StripEmptyIff(required[k]);
      if Strip(required[k]) == "" {
        fails := fails + 1;
      }
    }
    assert fails == 0 <==> !Blank(required[0]) && !Blank(required[1]) && !Blank(required[2]) && !Blank(required[3])
                           && !Blank(required[4]);
  }

  /** The loop over the covers. */
  method CheckCovers(covers: seq<string>, files: set<string>) returns (fails: nat, signed: nat)
    ensures fails == 0 <==> CoversExist(covers, files)
    ensures signed <= |covers| && (fails == 0 ==> signed == |covers|)
  {
    fails, signed := 0, 0;
    for k := 0 to |covers|
      invariant fails == 0 <==> CoversExist(covers[..k], files)
      invariant signed <= k && (fails == 0 ==> signed == k)
    {
      assert covers[..k + 1] == covers[..k] + [covers[k]];
      var cover := Strip(covers[k]);
      if !EndsWith(cover, ".feature") {
        fails := fails + 1;
      } else if cover !in files {
        fails := fails + 1;
      } else {
        signed := signed + 1;
      }
      assert CoversExist(covers[..k + 1], files)
        <==> CoversExist(covers[..k], files) && EndsWith(cover, ".feature") && cover in files;
    }
    assert covers[..|covers|] == covers;
  }

  /** The guard over all ledger files; `None` is a file that does not parse. */
  method CheckLedgers(docs: seq<Option<Ledger>>, files: set<string>) returns (code: int)
    ensures code == if forall i :: 0 <= i < |docs| ==> docs[i].Some? && LedgerOk(docs[i].value, files) then 0 else 1
  {
    var fails := 0;
    for k := 0 to |docs|
      invariant fails >= 0
      invariant fails == 0 <==> forall i :: 0 <= i < k ==> docs[i].Some? && LedgerOk(docs[i].value, files)
    {
      if docs[k] == None {
        fails := fails + 1;
        continue;
      }
      var found, _ := CheckLedger(docs[k].value, files);
      fails := fails + found;
    }
    code := if fails > 0 then 1 else 0;
  }

  lemma BlankJoin(a: string, b: string)
    ensures Blank(a + b) <==> Blank(a) && Blank(b)
  {
    assert forall i :: 0 <= i < |a| ==> (a + b)[i] == a[i];
    assert forall i :: 0 <= i < |b| ==> (a + b)[|a| + i] == b[i];
  }

  /** Joined approvers are blank only when there is a single blank one. */
  lemma SignedByBlank(approvers: seq<string>)
    ensures Blank(SignedBy(approvers)) <==> |approvers| == 1 && Blank(approvers[0])
  {
    if approvers == [] {
      assert !IsSpace(NO_APPROVER[1]);
    } else if |approvers| > 1 {
      BlankJoin(approvers[0] + " + ", Join(approvers[1..], " + "));
      BlankJoin(approvers[0], " + ");
      assert !IsSpace(" + "[1]);
    }
  }

  lemma {:induction false} ScopeIsTrimmed(labels: seq<string>)
    ensures var s := ScopeFromLabels(labels); s.Some? ==> s.value != "" && Strip(s.value) == s.value
  {
    if labels != [] {
      ScopeIsTrimmed(labels[1..]);
      var s := Strip(labels[0]);
      if LabelScope(labels[0]).Some? { StripTwice(s[|PREFIX|..]); }
    }
  }

  lemma NotBlank(s: string)
    requires s != "" && Strip(s) == s
    ensures !Blank(s)
  {
    StripEmptyIff(s);
  }

  /** A written ledger passes the guard exactly when the merge date is not blank, the only approver is not blank, and
      every cover names an existing `.feature` file; everything else the script has checked. */
  lemma WrittenLedgerPassesIff(e: Event, files: set<string>)
    requires BuildSignoff(e).Some?
    ensures LedgerOk(BuildSignoff(e).value.1, files) <==>
      !Blank(DateOf(e.mergedAt)) && !(|e.approvers| == 1 && Blank(e.approvers[0]))
      && CoversExist(e.block.value.covers.items, files)
  {
    var l, items := BuildSignoff(e).value.1, e.block.value.covers.items;
    ScopeIsTrimmed(e.labels);
    NotBlank(l.scope);
    SignedByBlank(e.approvers);
    assert !IsSpace(l.evidence[0]);
    forall k | k in KINDS ensures !Blank(k) { assert !IsSpace(k[0]); }
    TrimmedCovers(items, files);
  }

  lemma TrimmedCovers(items: seq<string>, files: set<string>)
    ensures CoversExist(StripAll(items), files) <==> CoversExist(items, files)
  {
    forall i | 0 <= i < |items| ensures Strip(StripAll(items)[i]) == Strip(items[i]) { StripTwice(items[i]); }
  }

  // ----- signed features

  function FeaturesIn(l: Ledger): set<string> {
    if l.covers.NotAList? then {}
    else set i | 0 <= i < |l.covers.items| && EndsWith(Strip(l.covers.items[i]), ".feature")
         :: Strip(l.covers.items[i])
  }

  function Signed(ledgers: Ledgers): set<string> {
    set scope, f | scope in ledgers && f in FeaturesIn(ledgers[scope]) :: f
  }

  lemma FeaturesInIff(l: Ledger, f: string)
    ensures f in FeaturesIn(l) <==>
      EndsWith(f, ".feature") && l.covers.Listed?
      && exists i :: 0 <= i < |l.covers.items| && Strip(l.covers.items[i]) == f
  {
  }

  /** A feature is signed exactly when some ledger lists it among its covers. */
  lemma SignedIff(ledgers: Ledgers, f: string)
    ensures f in Signed(ledgers) <==>
      EndsWith(f, ".feature")
      && exists scope, i :: scope in ledgers && ledgers[scope].covers.Listed? && 0 <= i < |ledgers[scope].covers.items|
                            && Strip(ledgers[scope].covers.items[i]) == f
  {
    forall scope | scope in ledgers { FeaturesInIff(ledgers[scope], f); }
  }

  /** `load_signoff_features` over the ledger files in any order. */
  method LoadSignoffFeatures(docs: seq<Ledger>) returns (signed: set<string>)
    ensures signed == set d, f | d in docs && f in FeaturesIn(d) :: f
  {
    signed := {};
    for k := 0 to |docs|
      invariant signed == set d, f | d in docs[..k] && f in FeaturesIn(d) :: f
    {
      assert docs[..k + 1] == docs[..k] + [docs[k]];
      ghost var before := signed;
      if docs[k].covers.Listed? {
        var items := docs[k].covers.items;
        for j := 0 to |items|
          invariant signed == before + set i | 0 <= i < j && EndsWith(Strip(items[i]), ".feature") :: Strip(items[i])
        {
          var ref := Strip(items[j]);
          if EndsWith(ref, ".feature") {
            signed := signed + {ref};
          }
        }
      }
      assert signed == before + FeaturesIn(docs[k]);
    }
    assert docs[..|docs|] == docs;
  }

  // ----- over any sequence of events

  function LandAll(ledgers: Ledgers, events: seq<Event>): Ledgers
    decreases |events|
  {
    if events == [] then ledgers else LandAll(Land(ledgers, events[0]), events[1..])
  }

  /** Some event signs the scope with this ledger. */
  ghost predicate SignedByOne(events: seq<Event>, scope: string, l: Ledger) {
    exists e :: e in events && Signs(e, scope) && Records(l, e, scope)
  }

  /** No existing ledger changes, the signed set only grows, and every new ledger records one of the events, which
      signs its scope. */
  lemma {:induction false} LedgersOnlyGrow(ledgers: Ledgers, events: seq<Event>)
    ensures var after := LandAll(ledgers, events);
      ledgers.Keys <= after.Keys && (forall s :: s in ledgers ==> after[s] == ledgers[s])
      && Signed(ledgers) <= Signed(after)
      && forall s :: s in after && s !in ledgers ==> SignedByOne(events, s, after[s])
    decreases |events|
  {
    if events != [] {
      var next, rest := Land(ledgers, events[0]), events[1..];
      LandIs(ledgers, events[0]);
      LedgersOnlyGrow(next, rest);
      var after := LandAll(ledgers, events);
      forall s | s in after && s !in ledgers ensures SignedByOne(events, s, after[s]) {
        if s in next {
          assert events[0] in events;
        } else {
          MoreEvents(events, s, after[s]);
        }
      }
      SignedGrows(ledgers, after);
    }
  }

  lemma MoreEvents(events: seq<Event>, scope: string, l: Ledger)
    requires events != [] && SignedByOne(events[1..], scope, l)
    ensures SignedByOne(events, scope, l)
  {
    var e :| e in events[1..] && Signs(e, scope) && Records(l, e, scope);
    assert e in events;
  }

  lemma SignedGrows(ledgers: Ledgers, after: Ledgers)
    requires ledgers.Keys <= after.Keys && forall s :: s in ledgers ==> after[s] == ledgers[s]
    ensures Signed(ledgers) <= Signed(after)
  {
  }
}
