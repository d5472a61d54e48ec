/**
 * The improvement gate over two difference reports (src/coingecko/improvement-gate.ts): which
 * findings were resolved, kept, introduced or reclassified, and whether the newer report passes.
 * A finding's identity is the string the gate builds, not a tuple.
 */
module ImprovementGate {
  import opened Common
  import opened Text
  import opened DiffReport

  datatype Finding = Finding(entryId: string, gapClass: GapClass, diffPaths: seq<string>)

  /** What the gate reads of a report; `replayed` lists the (entry id, normalized path) pairs of its replay. */
  datatype Report = Report(
    corpusIdentity: string, manifestId: string, replayTargetManifestIdentity: string,
    normalizationRulesId: string, divergenceRegistryId: string,
    findings: seq<Finding>, replayed: seq<(string, string)>)

  function ClassName(c: GapClass): string {
    match c
    case Shape => "shape"
    case MissingField => "missing_field"
    case Value => "value"
    case Ranking => "ranking"
    case Freshness => "freshness"
    case Source => "source"
  }

  /** entryId::gapClass::paths */
  function Identity(f: Finding): string {
    Prefix(f.entryId, f.gapClass) + Joined(f.diffPaths, "|")
  }

  function Prefix(entryId: string, c: GapClass): string { entryId + "::" + ClassName(c) + "::" }

  predicate Counts(c: GapClass) { c != Shape }

  function Actionable(findings: seq<Finding>): seq<Finding> {
    if findings == [] then []
    else
      var last := findings[|findings| - 1];
      Actionable(findings[..|findings| - 1]) + (if Counts(last.gapClass) then [last] else [])
  }

  function Ids(findings: seq<Finding>): set<string> {
    set f | f in findings :: Identity(f)
  }

  function OfEntry(findings: seq<Finding>, entryId: string): set<string> {
    set f | f in findings && f.entryId == entryId :: Identity(f)
  }

  function Entries(findings: seq<Finding>): set<string> {
    set f | f in findings :: f.entryId
  }

  /** Later rows win. */
  function Contracts(replayed: seq<(string, string)>): map<string, string> {
    if replayed == [] then map[]
    else
      var last := replayed[|replayed| - 1];
      Contracts(replayed[..|replayed| - 1])[last.0 := last.1]
  }

  // ---------------------------------------------------------------- what passing means

  predicate SameSetting(b: Report, c: Report) {
    && b.corpusIdentity == c.corpusIdentity && b.manifestId == c.manifestId
    && b.replayTargetManifestIdentity == c.replayTargetManifestIdentity
    && b.normalizationRulesId == c.normalizationRulesId && b.divergenceRegistryId == c.divergenceRegistryId
    && Contracts(b.replayed) == Contracts(c.replayed)
  }

  /** Entries with findings on both sides whose identities are not the same set. */
  function Reclassified(b: seq<Finding>, c: seq<Finding>): set<string> {
    set e | e in Entries(b) && e in Entries(c) && OfEntry(b, e) != OfEntry(c, e)
  }

  /** The gate passes. */
  predicate Passed(b: Report, c: Report) {
    var base, now := Actionable(b.findings), Actionable(c.findings);
    && SameSetting(b, c)
    && |now| < |base|
    && Ids(now) <= Ids(base)
    && Reclassified(base, now) == {}
  }

  lemma {:induction false} ActionableAre(findings: seq<Finding>, f: Finding)
    ensures f in Actionable(findings) <==> f in findings && Counts(f.gapClass)
  {
    if findings != [] {
      ActionableAre(findings[..|findings| - 1], f);
    }
  }

  /** The findings that count are all but those of shape, each as often as it is listed. */
  lemma {:induction false} ActionableKeeps(findings: seq<Finding>, f: Finding)
    ensures f in Actionable(findings) <==> f in findings && f.gapClass in {MissingField, Value, Ranking, Freshness, Source}
    ensures multiset(Actionable(findings))[f] == if f.gapClass == Shape then 0 else multiset(findings)[f]
    ensures |Actionable(findings)| + CountBy(findings, ClassOfFinding, Shape) == |findings|
  {
    if findings != [] {
      ActionableKeeps(findings[..|findings| - 1], f);
      Snoc(findings);
    }
  }

  /** An identity tells the class and the paths of a finding, given its entry. */
  lemma IdentityTells(f: Finding, g: Finding)
    requires f.entryId == g.entryId && Identity(f) == Identity(g)
    ensures f.gapClass == g.gapClass && Joined(f.diffPaths, "|") == Joined(g.diffPaths, "|")
  {
    var n := |f.entryId| + 2;
    IdentityRest(f);
    IdentityRest(g);
    var s, t := Identity(f)[n..], Identity(g)[n..];
    hide Identity, Joined;
    ClassIsRead(f.gapClass, Joined(f.diffPaths, "|"), g.gapClass, Joined(g.diffPaths, "|"));
  }

  lemma IdentityRest(f: Finding)
    ensures |f.entryId| + 2 <= |Identity(f)|
    ensures Identity(f)[|f.entryId| + 2..] == ClassName(f.gapClass) + "::" + Joined(f.diffPaths, "|")
  {
    assert Identity(f) == (f.entryId + "::") + (ClassName(f.gapClass) + "::" + Joined(f.diffPaths, "|"));
  }

  lemma ClassIsRead(c: GapClass, x: string, d: GapClass, y: string)
    requires ClassName(c) + "::" + x == ClassName(d) + "::" + y
    ensures c == d && x == y
  {
    var s := ClassName(c) + "::" + x;
    assert s[0] == ClassName(c)[0] == ClassName(d)[0] && s[1] == ClassName(c)[1] == ClassName(d)[1];
    assert c == d;
    var n := |ClassName(c)| + 2;
    assert x == s[n..] == y;
  }

  /** The last row of an entry. */
  ghost predicate LastRow(replayed: seq<(string, string)>, e: string, path: string) {
    exists i :: 0 <= i < |replayed| && replayed[i] == (e, path) && forall j :: i < j < |replayed| ==> replayed[j].0 != e
  }

  lemma {:induction false} ContractsAre(replayed: seq<(string, string)>, e: string, path: string)
    ensures e in Contracts(replayed) && Contracts(replayed)[e] == path <==> LastRow(replayed, e, path)
  {
    if replayed != [] {
      var n := |replayed| - 1;
      ContractsAre(replayed[..n], e, path);
      LastRowNext(replayed, e, path);
      hide LastRow;
    }
  }

  lemma LastRowNext(replayed: seq<(string, string)>, e: string, path: string)
    requires replayed != []
    ensures var n := |replayed| - 1;
            LastRow(replayed, e, path) <==>
            if replayed[n].0 == e then replayed[n].1 == path else LastRow(replayed[..n], e, path)
  {
    var n := |replayed| - 1;
    if replayed[n].0 == e {
      assert replayed[n].1 == path ==> replayed[n] == (e, path);
    } else {
      assert forall j :: 0 <= j < n ==> replayed[j] == replayed[..n][j];
      if i :| 0 <= i < n && replayed[..n][i] == (e, path) && forall j :: i < j < n ==> replayed[..n][j].0 != e {
        assert replayed[i] == (e, path);
      }
      if i :| 0 <= i < |replayed| && replayed[i] == (e, path) && forall j :: i < j < |replayed| ==> replayed[j].0 != e {
        assert replayed[..n][i] == (e, path);
      }
    }
  }

  // ---------------------------------------------------------------- when identities name their entry

  /** Some identity of entry e is also an identity of entry d. */
  predicate Shadows(e: string, d: string) {
    exists c :: Counts(c) && Prefix(e, c) <= d + "::"
  }

  lemma NameHasNoColon(c: GapClass, i: nat)
    requires i < |ClassName(c)|
    ensures ClassName(c)[i] != ':' && |ClassName(c)| >= 5
  {
  }

  lemma PrefixesCompare(s: string, t: string, whole: string)
    requires s <= whole && t <= whole
    ensures |s| <= |t| ==> s <= t
  {
  }

  lemma IdentityParts(f: Finding)
    ensures f.entryId <= Identity(f) && f.entryId + "::" <= Identity(f) && Prefix(f.entryId, f.gapClass) <= Identity(f)
  {
    assert Identity(f) == (f.entryId + "::") + (ClassName(f.gapClass) + "::" + Joined(f.diffPaths, "|"));
  }

  /** The separator after a longer id cannot lie before the end of a shorter one's prefix: class names have no colon. */
  lemma SeparatorComesLater(e: string, d: string, c: GapClass)
    requires |e| < |d| && d + "::" <= Prefix(e, c)
    ensures |d + "::"| == |Prefix(e, c)|
  {
    if |d + "::"| < |Prefix(e, c)| {
      var p := Prefix(e, c);
      assert p[|d|] == (d + "::")[|d|] == ':' && p[|d| + 1] == (d + "::")[|d| + 1] == ':';
      var at := if |d| == |e| + 1 then 0 else |d| - |e| - 2;
      NameHasNoColon(c, at);
      assert false;
    }
  }

  /** Two findings of different entries with one identity: the longer entry id is shadowed by the shorter. */
  lemma CollisionShadows(f: Finding, g: Finding)
    requires Identity(f) == Identity(g) && |f.entryId| <= |g.entryId| && f.entryId != g.entryId
    requires Counts(f.gapClass)
    ensures Shadows(f.entryId, g.entryId)
  {
    hide Identity, Prefix, Counts;
    var whole, e, d := Identity(f), f.entryId, g.entryId;
    IdentityParts(f);
    IdentityParts(g);
    PrefixesCompare(e, d, whole);
    var p := Prefix(e, f.gapClass);
    if |d + "::"| <= |p| {
      PrefixesCompare(d + "::", p, whole);
      SeparatorComesLater(e, d, f.gapClass);
    }
    PrefixesCompare(p, d + "::", whole);
  }

  lemma CollisionsExist(e: string, d: string, c: GapClass, path: string)
    returns (f: Finding, g: Finding)
    requires Counts(c) && Prefix(e, c) <= d + "::"
    ensures f == Finding(d, Value, [path])
    ensures g.entryId == e && g.gapClass == c && Identity(f) == Identity(g)
  {
    f := Finding(d, Value, [path]);
    var whole := Identity(f);
    assert whole == (d + "::") + ("value::" + path);
    var n := |Prefix(e, c)|;
    g := Finding(e, c, [whole[n..]]);
    assert whole[..n] == (d + "::")[..n] == Prefix(e, c);
    assert whole == whole[..n] + whole[n..];
  }

  predicate Unshadowed(entries: set<string>) {
    forall e, d :: e in entries && d in entries && e != d ==> !Shadows(e, d)
  }

  ghost predicate Over(r: Report, entries: set<string>) {
    Entries(Actionable(r.findings)) <= entries
  }

  lemma IdentityNamesEntry(f: Finding, g: Finding, entries: set<string>)
    requires Unshadowed(entries) && f.entryId in entries && g.entryId in entries
    requires Counts(f.gapClass) && Counts(g.gapClass) && Identity(f) == Identity(g)
    ensures f.entryId == g.entryId
  {
    if f.entryId != g.entryId {
      if |f.entryId| <= |g.entryId| { CollisionShadows(f, g); } else { CollisionShadows(g, f); }
    }
  }

  /** The identities of one entry are those of the whole list that name it. */
  lemma OwnIdentities(base: seq<Finding>, now: seq<Finding>, e: string, id: string, entries: set<string>)
    requires Unshadowed(entries) && Entries(base) <= entries && Entries(now) <= entries
    requires forall f :: f in base || f in now ==> Counts(f.gapClass)
    requires Ids(now) <= Ids(base) && id in OfEntry(now, e)
    ensures id in OfEntry(base, e)
  {
    var f :| f in now && f.entryId == e && Identity(f) == id;
    assert id in Ids(now);
    var g :| g in base && Identity(g) == id;
    assert g.entryId in Entries(base) && f.entryId in Entries(now);
    IdentityNamesEntry(f, g, entries);
  }

  lemma ActionableCount(findings: seq<Finding>)
    ensures forall f :: f in Actionable(findings) ==> Counts(f.gapClass)
  {
    forall f | f in Actionable(findings)
      ensures Counts(f.gapClass)
    {
      ActionableAre(findings, f);
    }
  }

  ghost predicate ResolvedOrUnchanged(base: seq<Finding>, now: seq<Finding>) {
    forall e :: OfEntry(now, e) == {} || OfEntry(now, e) == OfEntry(base, e)
  }

  lemma OfEntryEmpty(findings: seq<Finding>, e: string)
    ensures OfEntry(findings, e) == {} <==> e !in Entries(findings)
  {
    if f :| f in findings && f.entryId == e {
      assert Identity(f) in OfEntry(findings, e);
      assert f.entryId in Entries(findings);
    }
  }

  lemma ResolvedOrUnchangedIff(base: seq<Finding>, now: seq<Finding>, entries: set<string>)
    requires Unshadowed(entries) && Entries(base) <= entries && Entries(now) <= entries
    requires forall f :: f in base || f in now ==> Counts(f.gapClass)
    ensures Ids(now) <= Ids(base) && Reclassified(base, now) == {} <==> ResolvedOrUnchanged(base, now)
  {
    if Ids(now) <= Ids(base) && Reclassified(base, now) == {} {
      forall e
        ensures OfEntry(now, e) == {} || OfEntry(now, e) == OfEntry(base, e)
      {
        OfEntryEmpty(now, e);
        OfEntryEmpty(base, e);
        if OfEntry(now, e) != {} {
          var id :| id in OfEntry(now, e);
          OwnIdentities(base, now, e, id, entries);
          assert e !in Reclassified(base, now);
        }
      }
    }
    if ResolvedOrUnchanged(base, now) {
      ResolvedOrUnchangedKeeps(base, now);
    }
  }

  lemma ResolvedOrUnchangedKeeps(base: seq<Finding>, now: seq<Finding>)
    requires ResolvedOrUnchanged(base, now)
    ensures Ids(now) <= Ids(base) && Reclassified(base, now) == {}
  {
    forall id | id in Ids(now)
      ensures id in Ids(base)
    {
      var f :| f in now && Identity(f) == id;
      assert id in OfEntry(now, f.entryId);
      assert id in OfEntry(base, f.entryId);
    }
    forall e
      ensures e !in Reclassified(base, now)
    {
      OfEntryEmpty(now, e);
    }
  }

  /** What passing is meant to say: fewer findings, and every entry either resolved or exactly unchanged. */
  ghost predicate Improved(b: Report, c: Report) {
    && SameSetting(b, c)
    && |Actionable(c.findings)| < |Actionable(b.findings)|
    && ResolvedOrUnchanged(Actionable(b.findings), Actionable(c.findings))
  }

  lemma ImprovedPasses(b: Report, c: Report)
    requires Improved(b, c)
    ensures Passed(b, c)
  {
    ResolvedOrUnchangedKeeps(Actionable(b.findings), Actionable(c.findings));
  }

  lemma ImprovedChains(a: Report, b: Report, c: Report)
    requires Improved(a, b) && Improved(b, c)
    ensures Improved(a, c)
  {
    hide Actionable, OfEntry, Contracts;
  }

  /** Where identities name their entries, the gate passes exactly when every entry is resolved or unchanged. */
  lemma PassedMeans(b: Report, c: Report, entries: set<string>)
    requires Unshadowed(entries) && Over(b, entries) && Over(c, entries)
    ensures Passed(b, c) <==> Improved(b, c)
  {
    ActionableCount(b.findings);
    ActionableCount(c.findings);
    ResolvedOrUnchangedIff(Actionable(b.findings), Actionable(c.findings), entries);
  }

  /** Three reports that pass in turn but not from first to last, made from one shadowed entry id. */
  lemma ShadowBreaksTransitivity(e: string, d: string, entries: set<string>) returns (a: Report, b: Report, c: Report)
    requires e in entries && d in entries && e != d && Shadows(e, d)
    ensures Over(a, entries) && Over(b, entries) && Over(c, entries)
    ensures Passed(a, b) && Passed(b, c) && !Passed(a, c)
  {
    var gapClass :| Counts(gapClass) && Prefix(e, gapClass) <= d + "::";
    var f, g := CollisionsExist(e, d, gapClass, "x");
    var r := Finding(d, Value, ["y"]);
    hide *;
    a := Report("", "", "", "", "", [f, r, r], []);
    b := Report("", "", "", "", "", [g, g], []);
    c := Report("", "", "", "", "", [f], []);
    ThreeFindings(f, r);
    TwoFindings(g);
    OneFinding(f);
    SameSettings(a, b);
    SameSettings(b, c);
    PassesToOtherEntry(a, b, d, e);
    PassesToOtherEntry(b, c, e, d);
    DifferentPaths(d);
    LosesIdentity(a, c, d, Identity(r));
    OverOne(a, d, entries);
    OverOne(b, e, entries);
    OverOne(c, d, entries);
  }

  lemma SameSettings(a: Report, b: Report)
    requires a.(findings := []) == b.(findings := [])
    ensures SameSetting(a, b)
  {
  }

  lemma OverOne(r: Report, e: string, entries: set<string>)
    requires e in entries && Entries(Actionable(r.findings)) == {e}
    ensures Over(r, entries)
  {
    hide Entries, Actionable;
  }

  lemma LosesIdentity(base: Report, now: Report, d: string, id: string)
    requires Actionable(base.findings) == base.findings && Actionable(now.findings) == now.findings
    requires d in Entries(base.findings) && d in Entries(now.findings)
    requires id in OfEntry(base.findings, d) && id !in OfEntry(now.findings, d)
    ensures !Passed(base, now)
  {
    assert d in Reclassified(base.findings, now.findings);
  }

  lemma PassesToOtherEntry(base: Report, now: Report, d: string, e: string)
    requires SameSetting(base, now)
    requires Actionable(base.findings) == base.findings && Actionable(now.findings) == now.findings
    requires |now.findings| < |base.findings| && Ids(now.findings) <= Ids(base.findings)
    requires Entries(base.findings) == {d} && Entries(now.findings) == {e} && d != e
    ensures Passed(base, now)
  {
    hide SameSetting, Actionable, Ids, Entries, OfEntry;
  }

  lemma DifferentPaths(d: string)
    ensures Identity(Finding(d, Value, ["x"])) != Identity(Finding(d, Value, ["y"]))
  {
    var p := Prefix(d, Value);
    assert (p + "x")[|p|] == 'x' && (p + "y")[|p|] == 'y';
  }

  lemma {:induction false} AllActionable(findings: seq<Finding>)
    requires forall f :: f in findings ==> Counts(f.gapClass)
    ensures Actionable(findings) == findings
  {
    hide Counts;
    if findings != [] {
      Snoc(findings);
      AllActionable(findings[..|findings| - 1]);
    }
  }

  lemma OneFinding(f: Finding)
    requires Counts(f.gapClass)
    ensures Actionable([f]) == [f]
    ensures Ids([f]) == {Identity(f)} && Entries([f]) == {f.entryId}
    ensures OfEntry([f], f.entryId) == {Identity(f)}
  {
    AllActionable([f]);
    assert [f][0] in [f];
  }

  lemma TwoFindings(g: Finding)
    requires Counts(g.gapClass)
    ensures Actionable([g, g]) == [g, g]
    ensures Ids([g, g]) == {Identity(g)} && Entries([g, g]) == {g.entryId}
  {
    AllActionable([g, g]);
    assert [g, g][0] in [g, g];
  }

  lemma ThreeFindings(f: Finding, r: Finding)
    requires Counts(f.gapClass) && Counts(r.gapClass) && f.entryId == r.entryId
    ensures Actionable([f, r, r]) == [f, r, r]
    ensures Identity(f) in Ids([f, r, r]) && Entries([f, r, r]) == {f.entryId}
    ensures Identity(r) in OfEntry([f, r, r], f.entryId)
  {
    AllActionable([f, r, r]);
    assert [f, r, r][0] in [f, r, r] && [f, r, r][1] in [f, r, r];
  }

  ghost predicate TransitiveOver(entries: set<string>) {
    forall a, b, c :: Over(a, entries) && Over(b, entries) && Over(c, entries) && Passed(a, b) && Passed(b, c) ==>
      Passed(a, c)
  }

  /** Every report that passes against another is an improvement on it. */
  ghost predicate PassingImproves(entries: set<string>) {
    forall b, c :: Over(b, entries) && Over(c, entries) && Passed(b, c) ==> Improved(b, c)
  }

  lemma ImprovingIsTransitive(entries: set<string>)
    requires PassingImproves(entries)
    ensures TransitiveOver(entries)
  {
    hide Passed, Improved, Over;
    forall a, b, c | Over(a, entries) && Over(b, entries) && Over(c, entries) && Passed(a, b) && Passed(b, c)
      ensures Passed(a, c)
    {
      ImprovedChains(a, b, c);
      ImprovedPasses(a, c);
    }
  }

  /**
   * An improvement always passes. The other way round it holds over a set of entry ids exactly when
   * none of them shadows another.
   */
  lemma PassedMeansIff(entries: set<string>)
    ensures forall b, c :: Improved(b, c) ==> Passed(b, c)
    ensures PassingImproves(entries) <==> Unshadowed(entries)
  {
    hide Passed, Improved, Over, Shadows;
    forall b, c | Improved(b, c)
      ensures Passed(b, c)
    {
      ImprovedPasses(b, c);
    }
    if Unshadowed(entries) {
      forall b, c | Over(b, entries) && Over(c, entries) && Passed(b, c)
        ensures Improved(b, c)
      {
        PassedMeans(b, c, entries);
      }
    } else {
      var e, d :| e in entries && d in entries && e != d && Shadows(e, d);
      var a, b, c := ShadowBreaksTransitivity(e, d, entries);
      if PassingImproves(entries) {
        ImprovingIsTransitive(entries);
        assert false;
      }
    }
  }

  lemma PassedIsIrreflexive()
    ensures forall r :: !Passed(r, r)
  {
  }

  /** "Passed" is irreflexive, and transitive over a set of entry ids exactly when none of them shadows another. */
  lemma StrictOrderIff(entries: set<string>)
    ensures forall r :: !Passed(r, r)
    ensures TransitiveOver(entries) <==> Unshadowed(entries)
  {
    PassedIsIrreflexive();
    PassedMeansIff(entries);
    hide Passed, Improved, Over, Shadows;
    if Unshadowed(entries) {
      ImprovingIsTransitive(entries);
    } else {
      var e, d :| e in entries && d in entries && e != d && Shadows(e, d);
      var a, b, c := ShadowBreaksTransitivity(e, d, entries);
    }
  }

  /** Ids without a colon never shadow one another. */
  lemma PlainIdsAreUnshadowed(entries: set<string>)
    requires forall e :: e in entries ==> ':' !in e
    ensures Unshadowed(entries)
  {
    forall e, d | e in entries && d in entries && e != d
      ensures !Shadows(e, d)
    {
      forall c
        ensures !(Prefix(e, c) <= d + "::")
      {
        if Prefix(e, c) <= d + "::" {
          ColonsAfterId(e, d, c);
        }
      }
    }
  }

  lemma ColonsAfterId(e: string, d: string, c: GapClass)
    requires Prefix(e, c) <= d + "::" && ':' !in e
    ensures ':' in d
  {
    var p, t := Prefix(e, c), d + "::";
    NameHasNoColon(c, 0);
    assert |p| == |e| + 2 + |ClassName(c)| + 2 <= |t|;
    assert p[|e|] == ':';
    assert t[|e|] == p[|e|] && |e| < |d|;
    assert d[|e|] == ':';
  }

  // ---------------------------------------------------------------- the report

  lemma SubsetIff(s: set<string>, t: set<string>)
    ensures s - t == {} <==> s <= t
  {
    assert forall x :: x in s - t <==> x in s && x !in t;
  }

  /** Distinct identities are conserved: each old one is resolved or unchanged, each new one unchanged or introduced. */
  lemma BreakdownConserves(base: set<string>, now: set<string>)
    ensures |base - now| + |base * now| == |base|
    ensures |now - base| + |base * now| == |now|
  {
    assert (base - now) + (base * now) == base && (now - base) + (base * now) == now;
  }

  function CountBy<K(==)>(findings: seq<Finding>, key: Finding -> K, k: K): nat {
    if findings == [] then 0
    else CountBy(findings[..|findings| - 1], key, k) + (if key(findings[|findings| - 1]) == k then 1 else 0)
  }

  function ClassOfFinding(f: Finding): GapClass { f.gapClass }

  function EntryOfFinding(f: Finding): string { f.entryId }

  lemma CountAppend<K>(findings: seq<Finding>, i: nat, key: Finding -> K, k: K)
    requires i < |findings|
    ensures CountBy(findings[..i + 1], key, k) == CountBy(findings[..i], key, k) + (if key(findings[i]) == k then 1 else 0)
  {
    assert findings[..i + 1][..i] == findings[..i];
  }

  method SummarizeFindings(findings: seq<Finding>)
    returns (byGapClass: map<GapClass, nat>, byEntryId: map<string, nat>)
    ensures forall c :: c in byGapClass && byGapClass[c] == CountBy(findings, ClassOfFinding, c)
    ensures forall e :: (e in byEntryId <==> CountBy(findings, EntryOfFinding, e) > 0)
    ensures forall e :: e in byEntryId ==> byEntryId[e] == CountBy(findings, EntryOfFinding, e)
  {
    byGapClass := map[Shape := 0, MissingField := 0, Value := 0, Ranking := 0, Freshness := 0, Source := 0];
    byEntryId := map[];
    assert findings[..0] == [];
    forall c
      ensures c in byGapClass && byGapClass[c] == 0
    {
      match c
      case Shape =>
      case MissingField =>
      case Value =>
      case Ranking =>
      case Freshness =>
      case Source =>
    }
    var i := 0;
    while i < |findings|
      invariant 0 <= i <= |findings|
      invariant forall c :: c in byGapClass && byGapClass[c] == CountBy(findings[..i], ClassOfFinding, c)
      invariant forall e :: (e in byEntryId <==> CountBy(findings[..i], EntryOfFinding, e) > 0)
      invariant forall e :: e in byEntryId ==> byEntryId[e] == CountBy(findings[..i], EntryOfFinding, e)
    {
      var f := findings[i];
      forall c
        ensures CountBy(findings[..i + 1], ClassOfFinding, c) ==
                CountBy(findings[..i], ClassOfFinding, c) + (if f.gapClass == c then 1 else 0)
      {
        CountAppend(findings, i, ClassOfFinding, c);
      }
      forall e
        ensures CountBy(findings[..i + 1], EntryOfFinding, e) ==
                CountBy(findings[..i], EntryOfFinding, e) + (if f.entryId == e then 1 else 0)
      {
        CountAppend(findings, i, EntryOfFinding, e);
      }
      byGapClass := byGapClass[f.gapClass := byGapClass[f.gapClass] + 1];
      byEntryId := byEntryId[f.entryId := (if f.entryId in byEntryId then byEntryId[f.entryId] else 0) + 1];
      i := i + 1;
    }
    assert findings[..i] == findings;
  }

  datatype Reason =
    | CorpusChanged | ManifestChanged | TargetChanged | RulesetChanged | RegistryChanged
    | CoverageChanged | ContractChanged | NotDecreased | Introduced | ReclassifiedEntries

  /** The entries present in both reports whose request changed. */
  function ChangedContracts(b: map<string, string>, c: map<string, string>): set<string> {
    set e | e in b && e in c && b[e] != c[e]
  }

  function When(failed: bool, reason: Reason): seq<Reason> { if failed then [reason] else [] }

  function SettingFailures(b: Report, c: Report): seq<Reason> {
    When(b.corpusIdentity != c.corpusIdentity, CorpusChanged)
    + When(b.manifestId != c.manifestId, ManifestChanged)
    + When(b.replayTargetManifestIdentity != c.replayTargetManifestIdentity, TargetChanged)
    + When(b.normalizationRulesId != c.normalizationRulesId, RulesetChanged)
    + When(b.divergenceRegistryId != c.divergenceRegistryId, RegistryChanged)
  }

  function ContractFailures(before: map<string, string>, after: map<string, string>): seq<Reason> {
    When(before.Keys != after.Keys, CoverageChanged)
    + When(ChangedContracts(before, after) != {}, ContractChanged)
  }

  function FindingFailures(base: seq<Finding>, now: seq<Finding>): seq<Reason> {
    When(|now| >= |base|, NotDecreased)
    + When(!(Ids(now) <= Ids(base)), Introduced)
    + When(Reclassified(base, now) != {}, ReclassifiedEntries)
  }

  function Failures(b: Report, c: Report): seq<Reason> {
    SettingFailures(b, c)
    + ContractFailures(Contracts(b.replayed), Contracts(c.replayed))
    + FindingFailures(Actionable(b.findings), Actionable(c.findings))
  }

  /** No reason is left exactly when the gate passes. */
  lemma NoFailureIffPassed(b: Report, c: Report)
    ensures Failures(b, c) == [] <==> Passed(b, c)
  {
    var base, now := Actionable(b.findings), Actionable(c.findings);
    var before, after := Contracts(b.replayed), Contracts(c.replayed);
    SameContracts(before, after);
    hide Contracts, Actionable, Ids, Reclassified, ChangedContracts;
    assert SettingFailures(b, c) == [] && before == after <==> SameSetting(b, c);
    assert ContractFailures(before, after) == [] <==> before == after;
    assert FindingFailures(base, now) == [] <==>
           |now| < |base| && Ids(now) <= Ids(base) && Reclassified(base, now) == {};
  }

  function Position(reason: Reason): nat {
    match reason
    case CorpusChanged => 0
    case ManifestChanged => 1
    case TargetChanged => 2
    case RulesetChanged => 3
    case RegistryChanged => 4
    case CoverageChanged => 5
    case ContractChanged => 6
    case NotDecreased => 7
    case Introduced => 8
    case ReclassifiedEntries => 9
  }

  lemma SettingMeans(b: Report, c: Report, r: Reason)
    ensures r in SettingFailures(b, c) <==>
            match r
            case CorpusChanged => b.corpusIdentity != c.corpusIdentity
            case ManifestChanged => b.manifestId != c.manifestId
            case TargetChanged => b.replayTargetManifestIdentity != c.replayTargetManifestIdentity
            case RulesetChanged => b.normalizationRulesId != c.normalizationRulesId
            case RegistryChanged => b.divergenceRegistryId != c.divergenceRegistryId
            case _ => false
  {
  }

  /** An entry counts on a side with some identity. */
  ghost predicate Has(r: Report, e: string, id: string) {
    exists f :: f in r.findings && f.gapClass != Shape && f.entryId == e && Identity(f) == id
  }

  ghost predicate HasEntry(r: Report, e: string) { exists id :: Has(r, e, id) }

  ghost predicate HasIdentity(r: Report, id: string) { exists e :: Has(r, e, id) }

  ghost predicate Replays(r: Report, e: string) { exists p :: LastRow(r.replayed, e, p) }

  lemma HasIs(r: Report, e: string, id: string)
    ensures Has(r, e, id) <==> id in OfEntry(Actionable(r.findings), e)
    ensures HasEntry(r, e) <==> e in Entries(Actionable(r.findings))
    ensures HasIdentity(r, id) <==> id in Ids(Actionable(r.findings))
  {
    forall f
      ensures f in Actionable(r.findings) <==> f in r.findings && f.gapClass != Shape
    {
      ActionableAre(r.findings, f);
    }
    hide Actionable, Identity;
    if f :| f in Actionable(r.findings) && f.entryId == e { assert Has(r, e, Identity(f)); }
    if f :| f in Actionable(r.findings) && Identity(f) == id { assert Has(r, f.entryId, id); }
  }

  lemma ReplaysIs(r: Report, e: string)
    ensures Replays(r, e) <==> e in Contracts(r.replayed)
    ensures forall p :: LastRow(r.replayed, e, p) <==> e in Contracts(r.replayed) && Contracts(r.replayed)[e] == p
  {
    hide Contracts, LastRow;
    forall p
      ensures LastRow(r.replayed, e, p) <==> e in Contracts(r.replayed) && Contracts(r.replayed)[e] == p
    {
      ContractsAre(r.replayed, e, p);
    }
    if e in Contracts(r.replayed) { assert LastRow(r.replayed, e, Contracts(r.replayed)[e]); }
  }

  /** When each reason is given, read off the two reports. */
  ghost predicate Holds(b: Report, c: Report, r: Reason) {
    match r
    case CorpusChanged => b.corpusIdentity != c.corpusIdentity
    case ManifestChanged => b.manifestId != c.manifestId
    case TargetChanged => b.replayTargetManifestIdentity != c.replayTargetManifestIdentity
    case RulesetChanged => b.normalizationRulesId != c.normalizationRulesId
    case RegistryChanged => b.divergenceRegistryId != c.divergenceRegistryId
    case CoverageChanged =>
      exists e :: Replays(b, e) != Replays(c, e)
    case ContractChanged =>
      exists e, p, q :: p != q && LastRow(b.replayed, e, p) && LastRow(c.replayed, e, q)
    case NotDecreased =>
      |c.findings| - CountBy(c.findings, ClassOfFinding, Shape) >= |b.findings| - CountBy(b.findings, ClassOfFinding, Shape)
    case Introduced =>
      exists id :: HasIdentity(c, id) && !HasIdentity(b, id)
    case ReclassifiedEntries =>
      exists e, id :: HasEntry(b, e) && HasEntry(c, e) && Has(b, e, id) != Has(c, e, id)
  }

  lemma CoverageMeans(b: Report, c: Report)
    ensures Contracts(b.replayed).Keys != Contracts(c.replayed).Keys <==> exists e :: Replays(b, e) != Replays(c, e)
  {
    hide Replays, LastRow, Contracts;
    var before, after := Contracts(b.replayed).Keys, Contracts(c.replayed).Keys;
    forall e
      ensures (Replays(b, e) <==> e in before) && (Replays(c, e) <==> e in after)
    {
      ReplaysIs(b, e);
      ReplaysIs(c, e);
    }
    if before != after {
      var e :| (e in before) != (e in after);
      assert Replays(b, e) != Replays(c, e);
    }
  }

  lemma ContractMeans(b: Report, c: Report)
    ensures ChangedContracts(Contracts(b.replayed), Contracts(c.replayed)) != {} <==>
            exists e, p, q :: p != q && LastRow(b.replayed, e, p) && LastRow(c.replayed, e, q)
  {
    hide Replays, LastRow, Contracts;
    var before, after := Contracts(b.replayed), Contracts(c.replayed);
    if ChangedContracts(before, after) != {} {
      var e :| e in ChangedContracts(before, after);
      ReplaysIs(b, e);
      ReplaysIs(c, e);
      assert LastRow(b.replayed, e, before[e]) && LastRow(c.replayed, e, after[e]);
    }
    if e, p, q :| p != q && LastRow(b.replayed, e, p) && LastRow(c.replayed, e, q) {
      ReplaysIs(b, e);
      ReplaysIs(c, e);
      assert e in ChangedContracts(before, after);
    }
  }

  lemma IntroducedMeans(b: Report, c: Report)
    ensures !(Ids(Actionable(c.findings)) <= Ids(Actionable(b.findings))) <==> exists id :: HasIdentity(c, id) && !HasIdentity(b, id)
  {
    hide HasIdentity, Has, Ids, Actionable;
    var base, now := Ids(Actionable(b.findings)), Ids(Actionable(c.findings));
    forall id
      ensures (HasIdentity(b, id) <==> id in base) && (HasIdentity(c, id) <==> id in now)
    {
      HasIs(b, "", id);
      HasIs(c, "", id);
    }
    if !(now <= base) {
      var id :| id in now && id !in base;
      assert HasIdentity(c, id) && !HasIdentity(b, id);
    }
  }

  lemma ReclassifiedMeans(b: Report, c: Report)
    ensures Reclassified(Actionable(b.findings), Actionable(c.findings)) != {} <==>
            exists e, id :: HasEntry(b, e) && HasEntry(c, e) && Has(b, e, id) != Has(c, e, id)
  {
    hide HasEntry, Has, HasIdentity, OfEntry, Entries, Actionable;
    var base, now := Actionable(b.findings), Actionable(c.findings);
    if Reclassified(base, now) != {} {
      var e :| e in Reclassified(base, now);
      var id :| (id in OfEntry(base, e)) != (id in OfEntry(now, e));
      HasIs(b, e, id);
      HasIs(c, e, id);
      assert Has(b, e, id) != Has(c, e, id);
    }
    if e, id :| HasEntry(b, e) && HasEntry(c, e) && Has(b, e, id) != Has(c, e, id) {
      HasIs(b, e, id);
      HasIs(c, e, id);
      assert e in Reclassified(base, now);
    }
  }

  lemma DecreaseMeans(b: Report, c: Report)
    ensures |Actionable(c.findings)| >= |Actionable(b.findings)| <==> Holds(b, c, NotDecreased)
  {
    ActionableKeeps(b.findings, Finding("", Value, []));
    ActionableKeeps(c.findings, Finding("", Value, []));
    hide Actionable, CountBy;
  }

  lemma InFailures(b: Report, c: Report, r: Reason)
    ensures r in Failures(b, c) <==>
            || r in SettingFailures(b, c)
            || r in ContractFailures(Contracts(b.replayed), Contracts(c.replayed))
            || r in FindingFailures(Actionable(b.findings), Actionable(c.findings))
  {
    hide SettingFailures, ContractFailures, FindingFailures;
  }

  lemma InRest(before: map<string, string>, after: map<string, string>, base: seq<Finding>, now: seq<Finding>, r: Reason)
    ensures r in ContractFailures(before, after) <==>
            (r == CoverageChanged && before.Keys != after.Keys) || (r == ContractChanged && ChangedContracts(before, after) != {})
    ensures r in FindingFailures(base, now) <==>
            || (r == NotDecreased && |now| >= |base|)
            || (r == Introduced && !(Ids(now) <= Ids(base)))
            || (r == ReclassifiedEntries && Reclassified(base, now) != {})
  {
    hide ChangedContracts, Ids, Reclassified;
  }

  /** Each reason is given exactly when it holds of the two reports. */
  lemma FailuresMean(b: Report, c: Report, r: Reason)
    ensures r in Failures(b, c) <==> Holds(b, c, r)
  {
    hide Failures, Replays, LastRow, Contracts, HasIdentity, HasEntry, Has, Ids, Actionable, Reclassified, ChangedContracts;
    hide CountBy;
    InFailures(b, c, r);
    SettingMeans(b, c, r);
    InRest(Contracts(b.replayed), Contracts(c.replayed), Actionable(b.findings), Actionable(c.findings), r);
    hide SettingFailures, ContractFailures, FindingFailures;
    match r
    case CoverageChanged => CoverageMeans(b, c);
    case ContractChanged => ContractMeans(b, c);
    case NotDecreased => DecreaseMeans(b, c);
    case Introduced => IntroducedMeans(b, c);
    case ReclassifiedEntries => ReclassifiedMeans(b, c);
    case _ =>
  }

  /** Reasons come once, in the gate's order. */
  lemma FailuresInOrder(b: Report, c: Report)
    ensures InOrder(Failures(b, c), 0, 10)
  {
    hide SettingFailures, ContractFailures, FindingFailures, Contracts, Actionable, InOrder;
    SettingInOrder(b, c);
    RestInOrder(Contracts(b.replayed), Contracts(c.replayed), Actionable(b.findings), Actionable(c.findings));
  }

  ghost predicate InOrder(reasons: seq<Reason>, low: nat, high: nat) {
    && (forall i :: 0 <= i < |reasons| ==> low <= Position(reasons[i]) < high)
    && forall i, j :: 0 <= i < j < |reasons| ==> Position(reasons[i]) < Position(reasons[j])
  }

  lemma OneInOrder(failed: bool, r: Reason)
    ensures InOrder(When(failed, r), Position(r), Position(r) + 1)
  {
  }

  lemma OrderJoins(a: seq<Reason>, b: seq<Reason>, low: nat, middle: nat, high: nat)
    requires low <= middle <= high && InOrder(a, low, middle) && InOrder(b, middle, high)
    ensures InOrder(a + b, low, high)
  {
    hide Position;
  }

  lemma SettingInOrder(b: Report, c: Report)
    ensures InOrder(SettingFailures(b, c), 0, 5)
  {
    var corpus, manifest := When(b.corpusIdentity != c.corpusIdentity, CorpusChanged), When(b.manifestId != c.manifestId, ManifestChanged);
    var target := When(b.replayTargetManifestIdentity != c.replayTargetManifestIdentity, TargetChanged);
    var ruleset := When(b.normalizationRulesId != c.normalizationRulesId, RulesetChanged);
    var registry := When(b.divergenceRegistryId != c.divergenceRegistryId, RegistryChanged);
    OneInOrder(b.corpusIdentity != c.corpusIdentity, CorpusChanged);
    OneInOrder(b.manifestId != c.manifestId, ManifestChanged);
    OneInOrder(b.replayTargetManifestIdentity != c.replayTargetManifestIdentity, TargetChanged);
    OneInOrder(b.normalizationRulesId != c.normalizationRulesId, RulesetChanged);
    OneInOrder(b.divergenceRegistryId != c.divergenceRegistryId, RegistryChanged);
    hide When, InOrder;
    OrderJoins(corpus, manifest, 0, 1, 2);
    OrderJoins(corpus + manifest, target, 0, 2, 3);
    OrderJoins(corpus + manifest + target, ruleset, 0, 3, 4);
    OrderJoins(corpus + manifest + target + ruleset, registry, 0, 4, 5);
  }

  lemma RestInOrder(before: map<string, string>, after: map<string, string>, base: seq<Finding>, now: seq<Finding>)
    ensures InOrder(ContractFailures(before, after), 5, 7) && InOrder(FindingFailures(base, now), 7, 10)
    ensures forall setting :: InOrder(setting, 0, 5) ==>
              InOrder(setting + ContractFailures(before, after) + FindingFailures(base, now), 0, 10)
  {
    var coverage, contract := before.Keys != after.Keys, ChangedContracts(before, after) != {};
    var more, introduced, reclassified := |now| >= |base|, !(Ids(now) <= Ids(base)), Reclassified(base, now) != {};
    OneInOrder(coverage, CoverageChanged);
    OneInOrder(contract, ContractChanged);
    OneInOrder(more, NotDecreased);
    OneInOrder(introduced, Introduced);
    OneInOrder(reclassified, ReclassifiedEntries);
    hide When, InOrder;
    OrderJoins(When(coverage, CoverageChanged), When(contract, ContractChanged), 5, 6, 7);
    OrderJoins(When(more, NotDecreased), When(introduced, Introduced), 7, 8, 9);
    OrderJoins(When(more, NotDecreased) + When(introduced, Introduced), When(reclassified, ReclassifiedEntries), 7, 9, 10);
    forall setting | InOrder(setting, 0, 5)
      ensures InOrder(setting + ContractFailures(before, after) + FindingFailures(base, now), 0, 10)
    {
      OrderJoins(setting, ContractFailures(before, after), 0, 5, 7);
      OrderJoins(setting + ContractFailures(before, after), FindingFailures(base, now), 0, 7, 10);
    }
  }

  method CheckSetting(b: Report, c: Report) returns (reasons: seq<Reason>)
    ensures reasons == SettingFailures(b, c)
  {
    reasons := [];
    if b.corpusIdentity != c.corpusIdentity { reasons := reasons + [CorpusChanged]; }
    ghost var corpus := When(b.corpusIdentity != c.corpusIdentity, CorpusChanged);
    assert reasons == corpus;
    if b.manifestId != c.manifestId { reasons := reasons + [ManifestChanged]; }
    ghost var manifest := When(b.manifestId != c.manifestId, ManifestChanged);
    assert reasons == corpus + manifest;
    if b.replayTargetManifestIdentity != c.replayTargetManifestIdentity { reasons := reasons + [TargetChanged]; }
    ghost var target := When(b.replayTargetManifestIdentity != c.replayTargetManifestIdentity, TargetChanged);
    assert reasons == corpus + manifest + target;
    if b.normalizationRulesId != c.normalizationRulesId { reasons := reasons + [RulesetChanged]; }
    ghost var ruleset := When(b.normalizationRulesId != c.normalizationRulesId, RulesetChanged);
    assert reasons == corpus + manifest + target + ruleset;
    if b.divergenceRegistryId != c.divergenceRegistryId { reasons := reasons + [RegistryChanged]; }
  }

  method CheckContracts(before: map<string, string>, after: map<string, string>) returns (reasons: seq<Reason>)
    ensures reasons == ContractFailures(before, after)
  {
    SameContracts(before, after);
    hide ChangedContracts;
    var dropped, added := before.Keys - after.Keys, after.Keys - before.Keys;
    reasons := [];
    if dropped != {} || added != {} { reasons := reasons + [CoverageChanged]; }
    if ChangedContracts(before, after) != {} { reasons := reasons + [ContractChanged]; }
  }

  method CheckFindings(base: seq<Finding>, now: seq<Finding>)
    returns (reasons: seq<Reason>, resolved: set<string>, introduced: set<string>)
    ensures reasons == FindingFailures(base, now)
    ensures resolved == Ids(base) - Ids(now) && introduced == Ids(now) - Ids(base)
  {
    hide Reclassified, Ids;
    resolved, introduced := Ids(base) - Ids(now), Ids(now) - Ids(base);
    SubsetIff(Ids(now), Ids(base));
    reasons := [];
    if |now| >= |base| { reasons := reasons + [NotDecreased]; }
    if introduced != {} { reasons := reasons + [Introduced]; }
    if Reclassified(base, now) != {} { reasons := reasons + [ReclassifiedEntries]; }
  }

  method CreateGateReport(b: Report, c: Report)
    returns (reasons: seq<Reason>, resolved: set<string>, introduced: set<string>)
    ensures reasons == Failures(b, c)
    ensures reasons == [] <==> Passed(b, c)
    ensures resolved == Ids(Actionable(b.findings)) - Ids(Actionable(c.findings))
    ensures introduced == Ids(Actionable(c.findings)) - Ids(Actionable(b.findings))
    ensures Passed(b, c) ==>
              introduced == {} && |resolved| + |Ids(Actionable(c.findings))| == |Ids(Actionable(b.findings))|
  {
    var contractFailures, findingFailures;
    reasons := CheckSetting(b, c);
    contractFailures := CheckContracts(Contracts(b.replayed), Contracts(c.replayed));
    findingFailures, resolved, introduced := CheckFindings(Actionable(b.findings), Actionable(c.findings));
    reasons := reasons + contractFailures + findingFailures;
    NoFailureIffPassed(b, c);
    hide Contracts, Actionable, SettingFailures, ContractFailures, FindingFailures, Reclassified;
    var base, now := Ids(Actionable(b.findings)), Ids(Actionable(c.findings));
    BreakdownConserves(base, now);
    SubsetIff(now, base);
    if now <= base { assert base * now == now; }
  }

  lemma SameContracts(b: map<string, string>, c: map<string, string>)
    ensures b == c <==> b.Keys == c.Keys && ChangedContracts(b, c) == {}
    ensures b.Keys - c.Keys == {} && c.Keys - b.Keys == {} <==> b.Keys == c.Keys
  {
    if b.Keys == c.Keys && ChangedContracts(b, c) == {} {
      forall e | e in b
        ensures e in c && b[e] == c[e]
      {
        assert e in b.Keys;
        assert e !in ChangedContracts(b, c);
      }
    }
    if b.Keys - c.Keys == {} && c.Keys - b.Keys == {} {
      assert forall e :: e in b.Keys ==> e !in b.Keys - c.Keys;
      assert forall e :: e in c.Keys ==> e !in c.Keys - b.Keys;
    }
  }
}
