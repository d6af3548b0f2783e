/**
 Which object of the planning scene a target name means (`ResolveTargetObjectId`): four rules in
 order of priority, and within a rule the first object in the order of the scene.
 */
module TargetResolution {

  datatype Rule = Exact | Clean | Whole | Entity

  const RULES := [Exact, Clean, Whole, Entity]

  /** The target without one leading slash. */
  function CleanId(target: string): string {
    if target != "" && target[0] == '/' then target[1..] else target
  }

  predicate Matches(rule: Rule, target: string, id: string) {
    match rule
    case Exact => id == target
    case Clean => id == CleanId(target)
    case Whole => id == CleanId(target) + "/whole"
    case Entity => CleanId(target) + "/" <= id
  }

  ghost predicate Fires(rule: Rule, target: string, ids: seq<string>) {
    exists i :: 0 <= i < |ids| && Matches(rule, target, ids[i])
  }

  ghost predicate NoneFires(target: string, ids: seq<string>) {
    forall rule :: !Fires(rule, target, ids)
  }

  function Priority(rule: Rule): nat {
    match rule case Exact => 0 case Clean => 1 case Whole => 2 case Entity => 3
  }

  /** The rule decides: it fires, and none of higher priority does. */
  ghost predicate Decides(rule: Rule, target: string, ids: seq<string>) {
    Fires(rule, target, ids) && forall r :: Priority(r) < Priority(rule) ==> !Fires(r, target, ids)
  }

  /** The first match of a rule. */
  ghost predicate FirstMatch(rule: Rule, target: string, ids: seq<string>, r: string) {
    exists i :: 0 <= i < |ids| && ids[i] == r && Matches(rule, target, r)
                && forall j :: 0 <= j < i ==> !Matches(rule, target, ids[j])
  }

  /** The four-level specification. */
  ghost predicate Resolves(ids: seq<string>, target: string, r: string) {
    if target == "" || NoneFires(target, ids) then r == target
    else forall rule :: Decides(rule, target, ids) ==> FirstMatch(rule, target, ids, r)
  }

  function Scan(rule: Rule, target: string, ids: seq<string>): (r: nat)
    ensures r <= |ids|
    ensures forall j :: 0 <= j < r ==> !Matches(rule, target, ids[j])
    ensures r < |ids| ==> Matches(rule, target, ids[r])
  {
    if ids == [] || Matches(rule, target, ids[0]) then 0
    else
      var r := Scan(rule, target, ids[1..]);
      assert forall j :: 1 <= j < |ids| ==> ids[1..][j - 1] == ids[j];
      r + 1
  }

  function ResolveFrom(k: nat, ids: seq<string>, target: string): string
    requires k <= 4
    decreases 4 - k
  {
    if k == 4 then target
    else
      var i := Scan(RULES[k], target, ids);
      if i < |ids| then ids[i] else ResolveFrom(k + 1, ids, target)
  }

  function Resolve(ids: seq<string>, target: string): string {
    if target == "" then target else ResolveFrom(0, ids, target)
  }

  /** One loop of the source: the first id the rule accepts, if any. */
  method FindMatch(rule: Rule, target: string, ids: seq<string>) returns (i: nat)
    ensures i == Scan(rule, target, ids)
  {
    i := 0;
    while i < |ids| && !Matches(rule, target, ids[i])
      invariant i <= |ids| && Scan(rule, target, ids) == i + Scan(rule, target, ids[i..])
    {
      assert ids[i..][1..] == ids[i + 1..];
      i := i + 1;
    }
  }

  method ResolveTargetObjectId(ids: seq<string>, target: string) returns (r: string)
    ensures r == Resolve(ids, target)
  {
    if target == "" {
      return target;
    }
    for k := 0 to 4
      invariant ResolveFrom(0, ids, target) == ResolveFrom(k, ids, target)
    {
      var i := FindMatch(RULES[k], target, ids);
      if i < |ids| {
        return ids[i];
      }
    }
    return target;
  }

  // ---- the specification is met ----

  lemma ScanFires(rule: Rule, target: string, ids: seq<string>)
    ensures Fires(rule, target, ids) <==> Scan(rule, target, ids) < |ids|
    ensures Fires(rule, target, ids) ==> FirstMatch(rule, target, ids, ids[Scan(rule, target, ids)])
  {
    hide Matches;
    var r := Scan(rule, target, ids);
    hide Scan;
    if r < |ids| {
      assert Matches(rule, target, ids[r]);
    }
  }

  /** The scan implements the four-level priority. */
  lemma ResolveByPriority(ids: seq<string>, target: string)
    ensures Resolves(ids, target, Resolve(ids, target))
  {
    hide Fires, Matches, FirstMatch, Scan;
    ScanFires(Exact, target, ids);
    ScanFires(Clean, target, ids);
    ScanFires(Whole, target, ids);
    ScanFires(Entity, target, ids);
    if target != "" && !NoneFires(target, ids) {
      forall rule | Decides(rule, target, ids)
        ensures FirstMatch(rule, target, ids, Resolve(ids, target))
      {
        DecidedScan(rule, ids, target);
      }
    }
  }

  lemma DecidedScan(rule: Rule, ids: seq<string>, target: string)
    requires target != "" && Decides(rule, target, ids)
    ensures Fires(rule, target, ids) && Resolve(ids, target) == ids[Scan(rule, target, ids)]
  {
    hide Fires, Matches, Scan;
    ScanFires(Exact, target, ids);
    ScanFires(Clean, target, ids);
    ScanFires(Whole, target, ids);
    ScanFires(Entity, target, ids);
    var k := Priority(rule);
    assert RULES[k] == rule;
    assert Priority(Exact) == 0 && Priority(Clean) == 1 && Priority(Whole) == 2 && Priority(Entity) == 3;
  }

  /** An id any rule but the prefix rule can match is the answer of that rule wherever it is listed. */
  lemma ScanForId(rule: Rule, target: string, ids: seq<string>, id: string)
    requires forall x :: Matches(rule, target, x) <==> x == id
    ensures id in ids <==> Scan(rule, target, ids) < |ids|
    ensures id in ids ==> ids[Scan(rule, target, ids)] == id
  {
    var r := Scan(rule, target, ids);
    hide Scan;
    if i :| 0 <= i < |ids| && ids[i] == id {
      assert Matches(rule, target, ids[i]);
    }
  }

  lemma ResolveByScans(ids: seq<string>, target: string)
    requires target != ""
    ensures var exact, clean := Scan(Exact, target, ids), Scan(Clean, target, ids);
            var whole, entity := Scan(Whole, target, ids), Scan(Entity, target, ids);
            Resolve(ids, target)
            == if exact < |ids| then ids[exact] else if clean < |ids| then ids[clean]
               else if whole < |ids| then ids[whole] else if entity < |ids| then ids[entity] else target
  {
    hide Scan, Matches;
    assert RULES[0] == Exact && RULES[1] == Clean && RULES[2] == Whole && RULES[3] == Entity;
    assert ResolveFrom(4, ids, target) == target;
    assert ResolveFrom(2, ids, target)
        == if Scan(Whole, target, ids) < |ids| then ids[Scan(Whole, target, ids)] else ResolveFrom(3, ids, target);
  }

  /** The same on plain names, for a target that is x with or without one slash in front. */
  lemma ResolveOnNames(ids: seq<string>, target: string, x: string)
    requires target != "" && (target == "/" + x || (target == x && x[0] != '/'))
    ensures var r := Resolve(ids, target);
            && (target in ids ==> r == target)
            && (target !in ids && x in ids ==> r == x)
            && (target !in ids && x !in ids && x + "/whole" in ids ==> r == x + "/whole")
            && (target !in ids && x !in ids && x + "/whole" !in ids ==>
                  && (forall i :: 0 <= i < |ids| && x + "/" <= ids[i] && (forall j :: 0 <= j < i ==> !(x + "/" <= ids[j])) ==> r == ids[i])
                  && ((forall i :: 0 <= i < |ids| ==> !(x + "/" <= ids[i])) ==> r == target))
  {
    ResolveByScans(ids, target);
    assert CleanId(target) == x;
    hide CleanId, Resolve, Scan;
    ScanForId(Exact, target, ids, target);
    ScanForId(Clean, target, ids, x);
    ScanForId(Whole, target, ids, x + "/whole");
    FirstUnder(ids, target, x);
    hide Matches;
  }

  lemma FirstUnder(ids: seq<string>, target: string, x: string)
    requires CleanId(target) == x
    ensures var entity := Scan(Entity, target, ids);
            && (forall i :: 0 <= i < |ids| && x + "/" <= ids[i] && (forall j :: 0 <= j < i ==> !(x + "/" <= ids[j])) ==> entity == i)
            && ((forall i :: 0 <= i < |ids| ==> !(x + "/" <= ids[i])) ==> entity == |ids|)
  {
    var entity := Scan(Entity, target, ids);
    hide Scan, CleanId;
    forall i | 0 <= i < |ids|
      ensures x + "/" <= ids[i] <==> Matches(Entity, target, ids[i])
    {
    }
  }

  lemma SomeRuleDecides(ids: seq<string>, target: string) returns (rule: Rule)
    requires !NoneFires(target, ids)
    ensures Decides(rule, target, ids)
  {
    hide Fires;
    rule :| Fires(rule, target, ids);
    if Fires(Exact, target, ids) {
      rule := Exact;
    } else if Fires(Clean, target, ids) {
      rule := Clean;
    } else if Fires(Whole, target, ids) {
      rule := Whole;
    }
  }

  /**
   The answer is an object of the scene or the target itself; and it is the target itself
   exactly when the target is empty, is an object of the scene, or no rule fires.
   */
  lemma ResolveUnchangedIff(ids: seq<string>, target: string)
    ensures Resolve(ids, target) in ids || Resolve(ids, target) == target
    ensures Resolve(ids, target) == target <==> target == "" || target in ids || NoneFires(target, ids)
  {
    ResolveByPriority(ids, target);
    if target != "" {
      if NoneFires(target, ids) {
      } else {
        var rule := SomeRuleDecides(ids, target);
        DecidedScan(rule, ids, target);
        var r := Resolve(ids, target);
        assert r in ids;
        if target in ids {
          var i :| 0 <= i < |ids| && ids[i] == target;
          assert Matches(Exact, target, ids[i]);
          assert Fires(Exact, target, ids);
          assert rule == Exact;
        }
      }
    }
  }

  lemma ResolveIdempotent(ids: seq<string>, target: string)
    ensures Resolve(ids, Resolve(ids, target)) == Resolve(ids, target)
  {
  }

  // ---- the order of the scene ----

  ghost predicate SameObjects(a: seq<string>, b: seq<string>) {
    multiset(a) == multiset(b)
  }

  lemma SameObjectsFire(rule: Rule, target: string, a: seq<string>, b: seq<string>)
    requires SameObjects(a, b)
    ensures Fires(rule, target, a) <==> Fires(rule, target, b)
  {
    forall i | 0 <= i < |a|
      ensures a[i] in b
    {
      assert a[i] in multiset(b);
    }
    forall i | 0 <= i < |b|
      ensures b[i] in a
    {
      assert b[i] in multiset(a);
    }
  }

  lemma SameObjectsDecide(rule: Rule, target: string, a: seq<string>, b: seq<string>)
    requires SameObjects(a, b)
    ensures Decides(rule, target, a) <==> Decides(rule, target, b)
  {
    hide Fires, SameObjects;
    forall r
      ensures Fires(r, target, a) <==> Fires(r, target, b)
    {
      SameObjectsFire(r, target, a, b);
    }
  }

  ghost predicate OneEntity(target: string, ids: seq<string>) {
    forall i, j :: 0 <= i < |ids| && 0 <= j < |ids| && Matches(Entity, target, ids[i]) && Matches(Entity, target, ids[j]) ==> ids[i] == ids[j]
  }

  ghost predicate OrderFree(ids: seq<string>, target: string) {
    forall other :: SameObjects(ids, other) ==> Resolve(other, target) == Resolve(ids, target)
  }

  lemma OrderFreeWhen(ids: seq<string>, other: seq<string>, target: string)
    requires SameObjects(ids, other)
    requires target == "" || !Decides(Entity, target, ids) || OneEntity(target, ids)
    ensures Resolve(other, target) == Resolve(ids, target)
  {
    if target != "" {
      forall r
        ensures Fires(r, target, ids) <==> Fires(r, target, other)
      {
        SameObjectsFire(r, target, ids, other);
      }
      if NoneFires(target, ids) {
        ResolveUnchangedIff(ids, target);
        ResolveUnchangedIff(other, target);
      } else {
        var rule := SomeRuleDecides(ids, target);
        SameObjectsDecide(rule, target, ids, other);
        DecidedScan(rule, ids, target);
        DecidedScan(rule, other, target);
        var x, y := Resolve(ids, target), Resolve(other, target);
        assert Matches(rule, target, x) && Matches(rule, target, y);
        assert y in multiset(other);
        assert y in ids;
      }
    }
  }

  /** Moving another match to the front changes the answer. */
  lemma OrderMatters(ids: seq<string>, target: string) returns (other: seq<string>)
    requires target != "" && Decides(Entity, target, ids) && !OneEntity(target, ids)
    ensures SameObjects(ids, other) && Resolve(other, target) != Resolve(ids, target)
  {
    var a := Resolve(ids, target);
    DecidedScan(Entity, ids, target);
    assert Matches(Entity, target, a);
    var i, j :| 0 <= i < |ids| && 0 <= j < |ids| && Matches(Entity, target, ids[i]) && Matches(Entity, target, ids[j]) && ids[i] != ids[j];
    var m := if ids[i] != a then i else j;
    other := ToFront(ids, m);
    SameObjectsDecide(Entity, target, ids, other);
    DecidedScan(Entity, other, target);
    hide Matches, Decides, Resolve, OneEntity, SameObjects;
    assert Matches(Entity, target, other[0]);
  }

  lemma ToFront(ids: seq<string>, m: nat) returns (other: seq<string>)
    requires m < |ids|
    ensures SameObjects(ids, other) && other != [] && other[0] == ids[m]
  {
    other := [ids[m]] + (ids[..m] + ids[m + 1..]);
    assert ids == ids[..m] + [ids[m]] + ids[m + 1..];
  }

  /**
   The order in which the scene lists its objects plays no part exactly when the target is empty,
   the entity rule does not decide, or only one name matches it.
   */
  lemma OrderIndependence(ids: seq<string>, target: string)
    ensures OrderFree(ids, target) <==> target == "" || !Decides(Entity, target, ids) || OneEntity(target, ids)
  {
    if target == "" || !Decides(Entity, target, ids) || OneEntity(target, ids) {
      forall other | SameObjects(ids, other)
        ensures Resolve(other, target) == Resolve(ids, target)
      {
        OrderFreeWhen(ids, other, target);
      }
    } else {
      var other := OrderMatters(ids, target);
    }
  }

  // ---- a leading slash ----

  /** For a name without a leading slash, the slashed name obeys the same rules, except for the exact one. */
  lemma SlashedRules(ids: seq<string>, x: string)
    requires x != "" && x[0] != '/'
    ensures CleanId("/" + x) == x == CleanId(x)
    ensures forall rule :: rule != Exact ==> (Fires(rule, "/" + x, ids) <==> Fires(rule, x, ids))
    ensures Fires(Exact, x, ids) <==> Fires(Clean, x, ids)
    ensures Fires(Exact, "/" + x, ids) <==> "/" + x in ids
  {
  }

  lemma SameScan(rule: Rule, ids: seq<string>, s: string, rule': Rule, t: string)
    requires forall id :: Matches(rule, s, id) <==> Matches(rule', t, id)
    ensures Scan(rule, s, ids) == Scan(rule', t, ids)
  {
  }

  /**
   "/x" and "x" mean the same object exactly when "/x" itself is not in the scene and some rule
   fires for "x".
   */
  lemma LeadingSlash(ids: seq<string>, x: string)
    requires x != "" && x[0] != '/'
    ensures Resolve(ids, "/" + x) == Resolve(ids, x) <==> "/" + x !in ids && !NoneFires(x, ids)
  {
    var s := "/" + x;
    SlashedRules(ids, x);
    ResolveUnchangedIff(ids, x);
    ResolveUnchangedIff(ids, s);
    if s in ids {
      NotSlashed(ids, x);
    } else if NoneFires(x, ids) {
      assert NoneFires(s, ids);
    } else {
      var rule := SomeRuleDecides(ids, x);
      DecidedScan(rule, ids, x);
      if rule == Exact {
        SameScan(Exact, ids, x, Clean, s);
        assert Decides(Clean, s, ids);
        DecidedScan(Clean, ids, s);
      } else {
        SameScan(rule, ids, x, rule, s);
        assert Decides(rule, s, ids);
        DecidedScan(rule, ids, s);
      }
    }
  }

  lemma NotSlashed(ids: seq<string>, x: string)
    requires x != "" && x[0] != '/'
    ensures Resolve(ids, x) != "/" + x
  {
  }
}
