/**
 City priority: a word that names both a city and lower levels keeps only its cities when it is
 the only location evidence. The candidate slices are filtered and sorted in place.
 */
module CityPriority {
  import opened Model

  datatype CityType = Kota | Kabupaten

  type PrioritySet = map<string, CityType>

  function CityTypeOf(name: string): CityType {
    if |name| >= 5 && name[..5] == "Kota " then Kota else Kabupaten
  }

  // ---------- What a lone token keeps ----------

  function Cities(es: seq<Entity>): seq<Entity> {
    if es == [] then [] else (if es[0].level == City then [es[0]] else []) + Cities(es[1..])
  }

  predicate Preferred(e: Entity, cityType: CityType) {
    CityTypeOf(e.name) == cityType
  }

  /** The entities whose preference is as given, in their order. */
  function Those(es: seq<Entity>, cityType: CityType, preferred: bool): seq<Entity> {
    if es == [] then []
    else (if Preferred(es[0], cityType) == preferred then [es[0]] else []) + Those(es[1..], cityType, preferred)
  }

  /** The preferred cities first, the others after them, each group in its original order. */
  function PreferredFirst(es: seq<Entity>, cityType: CityType): seq<Entity> {
    Those(es, cityType, true) + Those(es, cityType, false)
  }

  function Focus(re: ResolvedEvidence, cityType: CityType): ResolvedEvidence {
    re.(candidates := PreferredFirst(Cities(re.candidates), cityType))
  }

  /** Does the evidence locate something on its own? */
  predicate Pinner(re: ResolvedEvidence, roadTokens: set<string>) {
    && re.candidates != []
    && re.evidence.value !in roadTokens
    && (re.evidence.kind == PlaceName || re.evidence.kind == PostalCode)
  }

  /** Does it, beside a token with the given value? */
  predicate Pins(re: ResolvedEvidence, value: string, roadTokens: set<string>) {
    re.evidence.value != value && Pinner(re, roadTokens)
  }

  ghost predicate HasOther(res: seq<ResolvedEvidence>, value: string, roadTokens: set<string>) {
    exists i :: 0 <= i < |res| && Pins(res[i], value, roadTokens)
  }

  predicate IsPriority(re: ResolvedEvidence, priority: PrioritySet) {
    re.evidence.kind == PlaceName && re.evidence.value in priority
  }

  /** A priority token with no other location evidence beside it. */
  ghost predicate Lone(res: seq<ResolvedEvidence>, i: nat, priority: PrioritySet, roadTokens: set<string>)
    requires i < |res|
  {
    IsPriority(res[i], priority) && !HasOther(res, res[i].evidence.value, roadTokens)
  }

  /** What visiting one position does, judged on the evidence as it then is. */
  ghost function Visit(res: seq<ResolvedEvidence>, i: nat, priority: PrioritySet,
                       roadTokens: set<string>): seq<ResolvedEvidence>
    requires i < |res|
  {
    if Lone(res, i, priority, roadTokens) then res[i := Focus(res[i], priority[res[i].evidence.value])] else res
  }

  ghost function VisitAll(res: seq<ResolvedEvidence>, order: seq<nat>, priority: PrioritySet,
                          roadTokens: set<string>): (r: seq<ResolvedEvidence>)
    requires forall k :: 0 <= k < |order| ==> order[k] < |res|
    ensures |r| == |res|
    decreases order
  {
    if order == [] then res else VisitAll(Visit(res, order[0], priority, roadTokens), order[1..], priority, roadTokens)
  }

  // ---------- Lemmas about filtering ----------

  lemma {:induction false} ThoseConcat(a: seq<Entity>, b: seq<Entity>, cityType: CityType, preferred: bool)
    ensures Those(a + b, cityType, preferred) == Those(a, cityType, preferred) + Those(b, cityType, preferred)
  {
    hide Preferred;
    if a == [] {
      assert a + b == b;
    } else {
      assert (a + b)[1..] == a[1..] + b;
      ThoseConcat(a[1..], b, cityType, preferred);
      var first := if Preferred(a[0], cityType) == preferred then [a[0]] else [];
      var rest, tail := Those(a[1..], cityType, preferred), Those(b, cityType, preferred);
      assert first + (rest + tail) == (first + rest) + tail;
    }
  }

  lemma {:induction false} ThoseAre(es: seq<Entity>, cityType: CityType, preferred: bool)
    ensures forall i :: 0 <= i < |Those(es, cityType, preferred)| ==>
              Preferred(Those(es, cityType, preferred)[i], cityType) == preferred
  {
    hide Preferred;
    if es != [] {
      ThoseAre(es[1..], cityType, preferred);
    }
  }

  lemma {:induction false} CitiesConcat(a: seq<Entity>, b: seq<Entity>)
    ensures Cities(a + b) == Cities(a) + Cities(b)
  {
    if a == [] {
      assert a + b == b;
    } else {
      assert (a + b)[1..] == a[1..] + b;
      CitiesConcat(a[1..], b);
      var first := if a[0].level == City then [a[0]] else [];
      var rest, tail := Cities(a[1..]), Cities(b);
      assert first + (rest + tail) == (first + rest) + tail;
    }
  }

  lemma PreferredFirstSnoc(es: seq<Entity>, x: Entity, cityType: CityType)
    ensures var p, n := Those(es, cityType, true), Those(es, cityType, false);
            PreferredFirst(es + [x], cityType) == if Preferred(x, cityType) then p + [x] + n else p + n + [x]
  {
    hide Preferred, Those;
    ThoseConcat(es, [x], cityType, true);
    ThoseConcat(es, [x], cityType, false);
    ThoseSingle(x, cityType, true);
    ThoseSingle(x, cityType, false);
  }

  lemma ThoseSingle(x: Entity, cityType: CityType, preferred: bool)
    ensures Those([x], cityType, preferred) == if Preferred(x, cityType) == preferred then [x] else []
  {
    hide Preferred;
    assert [x][1..] == [];
  }

  lemma {:induction false} CitiesMembers(es: seq<Entity>)
    ensures forall e :: e in Cities(es) <==> e in es && e.level == City
  {
    if es != [] {
      CitiesMembers(es[1..]);
    }
  }

  lemma {:induction false} ThoseMembers(es: seq<Entity>, cityType: CityType, preferred: bool)
    ensures forall e :: e in Those(es, cityType, preferred) <==> e in es && Preferred(e, cityType) == preferred
  {
    hide Preferred;
    if es != [] {
      ThoseMembers(es[1..], cityType, preferred);
    }
  }

  /** A lone token keeps exactly its city candidates. */
  lemma FocusKeepsCities(re: ResolvedEvidence, cityType: CityType)
    ensures forall e :: e in Focus(re, cityType).candidates <==> e in re.candidates && e.level == City
    ensures Focus(re, cityType).evidence == re.evidence
  {
    CitiesMembers(re.candidates);
    ThoseMembers(Cities(re.candidates), cityType, true);
    ThoseMembers(Cities(re.candidates), cityType, false);
  }

  /** The type is read off the name: KOTA exactly when it starts with "Kota ". */
  lemma CityTypeByName(name: string)
    ensures CityTypeOf(name) == Kota <==> exists rest :: name == "Kota " + rest
  {
    if CityTypeOf(name) == Kota {
      assert name == "Kota " + name[5..];
    }
    if rest :| name == "Kota " + rest {
      assert name[..5] == "Kota ";
    }
  }

  /** A narrowed token: the cities of the preferred type come first, and within each type the cities
      keep their order, none lost and none doubled. */
  lemma FocusOrder(re: ResolvedEvidence, cityType: CityType)
    ensures var r := Focus(re, cityType).candidates;
            && (forall i, j :: 0 <= i < j < |r| && CityTypeOf(r[j].name) == cityType ==> CityTypeOf(r[i].name) == cityType)
            && Those(r, cityType, true) == Those(Cities(re.candidates), cityType, true)
            && Those(r, cityType, false) == Those(Cities(re.candidates), cityType, false)
            && multiset(r) == multiset(Cities(re.candidates))
  {
    hide Cities, CityTypeOf;
    var es := Cities(re.candidates);
    var p, n := Those(es, cityType, true), Those(es, cityType, false);
    ThoseAre(es, cityType, true);
    ThoseAre(es, cityType, false);
    ThoseConcat(p, n, cityType, true);
    ThoseConcat(p, n, cityType, false);
    ThoseAgain(p, cityType, true);
    ThoseAgain(n, cityType, false);
    ThoseDivide(es, cityType);
    var r := p + n;
    forall i, j | 0 <= i < j < |r| && CityTypeOf(r[j].name) == cityType
      ensures CityTypeOf(r[i].name) == cityType
    {
      assert j >= |p| ==> !Preferred(n[j - |p|], cityType);
      assert Preferred(p[i], cityType);
    }
  }

  lemma {:induction false} ThoseAgain(es: seq<Entity>, cityType: CityType, preferred: bool)
    requires forall i :: 0 <= i < |es| ==> Preferred(es[i], cityType) == preferred
    ensures Those(es, cityType, preferred) == es && Those(es, cityType, !preferred) == []
  {
    hide Preferred;
    if es != [] {
      assert forall i :: 0 <= i < |es| - 1 ==> es[1..][i] == es[i + 1];
      ThoseAgain(es[1..], cityType, preferred);
      assert [es[0]] + es[1..] == es;
    }
  }

  lemma {:induction false} ThoseDivide(es: seq<Entity>, cityType: CityType)
    ensures multiset(Those(es, cityType, true)) + multiset(Those(es, cityType, false)) == multiset(es)
  {
    hide Preferred;
    if es != [] {
      ThoseDivide(es[1..], cityType);
      assert es == [es[0]] + es[1..];
    }
  }

  // ---------- When the rule applies ----------

  ghost predicate NobodyLone(res: seq<ResolvedEvidence>, priority: PrioritySet, roadTokens: set<string>) {
    forall i: nat :: i < |res| ==> !Lone(res, i, priority, roadTokens)
  }

  /** A resolved postal code beside every priority token switches the rule off. */
  lemma PostalCodePins(res: seq<ResolvedEvidence>, k: nat, priority: PrioritySet, roadTokens: set<string>)
    requires k < |res| && res[k].evidence.kind == PostalCode && res[k].candidates != []
    requires res[k].evidence.value !in roadTokens && res[k].evidence.value !in priority
    ensures NobodyLone(res, priority, roadTokens)
  {
    forall i: nat | i < |res| && res[i].evidence.value in priority
      ensures HasOther(res, res[i].evidence.value, roadTokens)
    {
      assert Pins(res[k], res[i].evidence.value, roadTokens);
    }
  }

  /** So do two resolved place names that are no road names. */
  lemma TwoPlacesPin(res: seq<ResolvedEvidence>, k: nat, l: nat, priority: PrioritySet, roadTokens: set<string>)
    requires k < |res| && res[k].evidence.kind == PlaceName && res[k].candidates != [] && res[k].evidence.value !in roadTokens
    requires l < |res| && res[l].evidence.kind == PlaceName && res[l].candidates != [] && res[l].evidence.value !in roadTokens
    requires res[k].evidence.value != res[l].evidence.value
    ensures NobodyLone(res, priority, roadTokens)
  {
    forall i: nat | i < |res|
      ensures HasOther(res, res[i].evidence.value, roadTokens)
    {
      assert Pins(res[k], res[i].evidence.value, roadTokens) || Pins(res[l], res[i].evidence.value, roadTokens);
    }
  }

  /** Road names, unresolved words and road evidence never switch it off. */
  lemma RoadNamesNeverPin(res: seq<ResolvedEvidence>, i: nat, priority: PrioritySet, roadTokens: set<string>)
    requires i < |res| && res[i].evidence.kind == PlaceName && res[i].evidence.value in priority
    requires forall k :: 0 <= k < |res| && res[k].evidence.value != res[i].evidence.value ==>
               res[k].candidates == [] || res[k].evidence.value in roadTokens || res[k].evidence.kind == RoadName
    ensures Lone(res, i, priority, roadTokens)
  {
  }

  /** While nobody is lone, no visit changes anything. */
  lemma {:induction false} NobodyLoneNoChange(res: seq<ResolvedEvidence>, order: seq<nat>, priority: PrioritySet,
                                              roadTokens: set<string>)
    requires NobodyLone(res, priority, roadTokens) && forall k :: 0 <= k < |order| ==> order[k] < |res|
    ensures VisitAll(res, order, priority, roadTokens) == res
    decreases order
  {
    if order != [] {
      hide Lone;
      NobodyLoneNoChange(res, order[1..], priority, roadTokens);
    }
  }

  // ---------- Visiting order ----------

  predicate HasCity(re: ResolvedEvidence) {
    exists k :: 0 <= k < |re.candidates| && re.candidates[k].level == City
  }

  /** Something pins the location, but only priority tokens of one value that lose all candidates
      once they are visited. */
  ghost predicate PinnersVanish(res: seq<ResolvedEvidence>, priority: PrioritySet, roadTokens: set<string>) {
    exists v :: PinnersAre(res, v, priority, roadTokens)
  }

  ghost predicate PinnersAre(res: seq<ResolvedEvidence>, v: string, priority: PrioritySet, roadTokens: set<string>) {
    && (exists k :: 0 <= k < |res| && Pinner(res[k], roadTokens))
    && (forall k :: 0 <= k < |res| && Pinner(res[k], roadTokens) ==>
          res[k].evidence.value == v && IsPriority(res[k], priority) && !HasCity(res[k]))
  }

  /** A priority token that is also a road token, and that a visit can change. */
  predicate Waits(re: ResolvedEvidence, priority: PrioritySet, roadTokens: set<string>) {
    && IsPriority(re, priority) && re.evidence.value in roadTokens
    && Focus(re, priority[re.evidence.value]) != re
  }

  ghost predicate SomeWaits(res: seq<ResolvedEvidence>, priority: PrioritySet, roadTokens: set<string>) {
    exists i :: 0 <= i < |res| && Waits(res[i], priority, roadTokens)
  }

  /** The evidence for which the visiting order matters. */
  ghost predicate OrderSensitive(res: seq<ResolvedEvidence>, priority: PrioritySet, roadTokens: set<string>) {
    PinnersVanish(res, priority, roadTokens) && SomeWaits(res, priority, roadTokens)
  }

  /** The outcome judged on the original evidence, position by position. */
  ghost function Settled(res: seq<ResolvedEvidence>, i: nat, priority: PrioritySet,
                         roadTokens: set<string>): ResolvedEvidence
    requires i < |res|
  {
    if Lone(res, i, priority, roadTokens) then Focus(res[i], priority[res[i].evidence.value]) else res[i]
  }

  /** `now` is the original evidence with the positions in `done` settled. */
  ghost predicate Progress(res: seq<ResolvedEvidence>, now: seq<ResolvedEvidence>, done: set<nat>,
                           priority: PrioritySet, roadTokens: set<string>)
  {
    && |now| == |res|
    && forall i: nat :: i < |res| ==> now[i] == if i in done then Settled(res, i, priority, roadTokens) else res[i]
  }

  /** Focusing keeps the evidence, and leaves a candidate exactly when there is a city. */
  lemma FocusLeavesCities(re: ResolvedEvidence, cityType: CityType)
    ensures Focus(re, cityType).evidence == re.evidence
    ensures Focus(re, cityType).candidates != [] <==> HasCity(re)
    ensures re.candidates == [] ==> Focus(re, cityType) == re
  {
    var fs := Focus(re, cityType).candidates;
    FocusKeepsCities(re, cityType);
    assert fs != [] ==> fs[0] in fs;
    if HasCity(re) {
      var k :| 0 <= k < |re.candidates| && re.candidates[k].level == City;
      assert re.candidates[k] in fs;
    }
  }

  /** On the way nothing becomes a pinner, and only lone tokens without a city stop being one. */
  lemma PinnersOnTheWay(res: seq<ResolvedEvidence>, now: seq<ResolvedEvidence>, done: set<nat>, k: nat,
                        priority: PrioritySet, roadTokens: set<string>)
    requires Progress(res, now, done, priority, roadTokens) && k < |res|
    ensures |now| == |res| && now[k].evidence == res[k].evidence
    ensures Pinner(now[k], roadTokens) ==> Pinner(res[k], roadTokens)
    ensures Pinner(res[k], roadTokens) && !Pinner(now[k], roadTokens) ==>
              Lone(res, k, priority, roadTokens) && !HasCity(res[k])
  {
    hide Focus, HasCity, HasOther;
    if Lone(res, k, priority, roadTokens) {
      FocusLeavesCities(res[k], priority[res[k].evidence.value]);
    }
  }

  lemma StillLone(res: seq<ResolvedEvidence>, now: seq<ResolvedEvidence>, done: set<nat>, i: nat,
                  priority: PrioritySet, roadTokens: set<string>)
    requires Progress(res, now, done, priority, roadTokens) && i < |res|
    requires Lone(res, i, priority, roadTokens)
    ensures |now| == |res| && Lone(now, i, priority, roadTokens)
  {
    hide Focus, HasCity, Progress;
    PinnersOnTheWay(res, now, done, i, priority, roadTokens);
    forall k | 0 <= k < |now|
      ensures !Pins(now[k], res[i].evidence.value, roadTokens)
    {
      PinnersOnTheWay(res, now, done, k, priority, roadTokens);
      assert !Pins(res[k], res[i].evidence.value, roadTokens);
    }
  }

  /** If a token becomes lone on the way, the pinners beside it were of the vanishing kind. */
  lemma BecameLone(res: seq<ResolvedEvidence>, now: seq<ResolvedEvidence>, done: set<nat>, i: nat,
                   priority: PrioritySet, roadTokens: set<string>)
    requires Progress(res, now, done, priority, roadTokens) && i < |res| && |now| == |res|
    requires Lone(now, i, priority, roadTokens) && !Lone(res, i, priority, roadTokens)
    requires now[i].evidence == res[i].evidence
    ensures PinnersVanish(res, priority, roadTokens)
    ensures !Pinner(res[i], roadTokens)
  {
    hide Focus, HasCity, Progress;
    var w := res[i].evidence.value;
    var q :| 0 <= q < |res| && Pins(res[q], w, roadTokens);
    var v := res[q].evidence.value;
    forall k | 0 <= k < |res| && Pins(res[k], w, roadTokens)
      ensures Lone(res, k, priority, roadTokens) && !HasCity(res[k])
    {
      PinnersOnTheWay(res, now, done, k, priority, roadTokens);
      assert !Pins(now[k], w, roadTokens);
    }
    forall k | 0 <= k < |res| && Pinner(res[k], roadTokens)
      ensures res[k].evidence.value == v && IsPriority(res[k], priority) && !HasCity(res[k])
    {
      assert !HasOther(res, v, roadTokens);
      assert !Pins(res[k], v, roadTokens);
    }
    assert PinnersAre(res, v, priority, roadTokens);
  }

  /** A visit gives a position its settled outcome, whatever was visited before. */
  lemma VisitSettles(res: seq<ResolvedEvidence>, now: seq<ResolvedEvidence>, done: set<nat>, i: nat,
                     priority: PrioritySet, roadTokens: set<string>)
    requires !OrderSensitive(res, priority, roadTokens) && Progress(res, now, done, priority, roadTokens)
    requires i < |res| && |now| == |res| && now[i] == res[i]
    ensures Visit(now, i, priority, roadTokens)[i] == Settled(res, i, priority, roadTokens)
  {
    hide Focus, HasCity, Progress, HasOther, PinnersVanish;
    if Lone(res, i, priority, roadTokens) {
      StillLone(res, now, done, i, priority, roadTokens);
    } else if Lone(now, i, priority, roadTokens) {
      BecameLone(res, now, done, i, priority, roadTokens);
      assert !Waits(res[i], priority, roadTokens);
      FocusLeavesCities(res[i], priority[res[i].evidence.value]);
    }
  }

  /** Positions in range, none repeated, none among those already visited. */
  ghost predicate FreshPositions(order: seq<nat>, n: nat, done: set<nat>) {
    && (forall k :: 0 <= k < |order| ==> order[k] < n && order[k] !in done)
    && (forall k, l :: 0 <= k < l < |order| ==> order[k] != order[l])
  }

  lemma RestIsFresh(order: seq<nat>, n: nat, done: set<nat>)
    requires FreshPositions(order, n, done) && order != []
    ensures order[0] < n && order[0] !in done
    ensures FreshPositions(order[1..], n, done + {order[0]})
  {
    assert forall k :: 0 <= k < |order| - 1 ==> order[1..][k] == order[k + 1];
  }

  lemma {:induction false} VisitAllSettles(res: seq<ResolvedEvidence>, now: seq<ResolvedEvidence>, done: set<nat>,
                                           order: seq<nat>, priority: PrioritySet, roadTokens: set<string>)
    requires !OrderSensitive(res, priority, roadTokens) && Progress(res, now, done, priority, roadTokens)
    requires |now| == |res| && FreshPositions(order, |res|, done)
    requires forall k :: 0 <= k < |order| ==> order[k] < |res|
    ensures Progress(res, VisitAll(now, order, priority, roadTokens), done + Positions(order), priority, roadTokens)
    decreases order
  {
    hide OrderSensitive, Visit, Progress, FreshPositions, Positions;
    AddPositions(order, done);
    if order != [] {
      var i, rest := order[0], order[1..];
      RestIsFresh(order, |res|, done);
      OneVisit(res, now, done, i, priority, roadTokens);
      VisitAllSettles(res, Visit(now, i, priority, roadTokens), done + {i}, rest, priority, roadTokens);
    }
  }

  ghost function Positions(order: seq<nat>): set<nat> {
    set i | i in order
  }

  lemma AddPositions(order: seq<nat>, done: set<nat>)
    ensures order == [] ==> done + Positions(order) == done
    ensures order != [] ==> done + Positions(order) == done + {order[0]} + Positions(order[1..])
  {
    if order != [] {
      assert order == [order[0]] + order[1..];
    }
  }

  lemma OneVisit(res: seq<ResolvedEvidence>, now: seq<ResolvedEvidence>, done: set<nat>, i: nat,
                 priority: PrioritySet, roadTokens: set<string>)
    requires !OrderSensitive(res, priority, roadTokens) && Progress(res, now, done, priority, roadTokens)
    requires i < |res| && i !in done
    ensures |now| == |Visit(now, i, priority, roadTokens)| == |res|
    ensures Progress(res, Visit(now, i, priority, roadTokens), done + {i}, priority, roadTokens)
  {
    hide OrderSensitive, Focus, Lone, Settled;
    VisitSettles(res, now, done, i, priority, roadTokens);
  }

  /** Every position exactly once. */
  ghost predicate IsOrder(order: seq<nat>, n: nat) {
    FreshPositions(order, n, {}) && forall i: nat :: i < n ==> i in order
  }

  /** Unless the evidence is order-sensitive, every order gives the position-by-position outcome. */
  lemma VisitingOrderIrrelevant(res: seq<ResolvedEvidence>, order: seq<nat>, priority: PrioritySet,
                                roadTokens: set<string>)
    requires !OrderSensitive(res, priority, roadTokens) && IsOrder(order, |res|)
    ensures forall i: nat :: i < |res| ==>
              VisitAll(res, order, priority, roadTokens)[i] == Settled(res, i, priority, roadTokens)
  {
    hide OrderSensitive, Settled;
    VisitAllSettles(res, res, {}, order, priority, roadTokens);
  }

  /** A lone token, whatever the order: exactly its cities are left, and one of the preferred type comes
      first if there is one. */
  lemma LoneTokenOutcome(res: seq<ResolvedEvidence>, order: seq<nat>, i: nat, priority: PrioritySet,
                         roadTokens: set<string>)
    requires !OrderSensitive(res, priority, roadTokens) && IsOrder(order, |res|)
    requires i < |res| && Lone(res, i, priority, roadTokens)
    ensures var r, cityType := VisitAll(res, order, priority, roadTokens)[i].candidates, priority[res[i].evidence.value];
            && (forall e :: e in r <==> e in res[i].candidates && e.level == City)
            && ((exists e :: e in r && CityTypeOf(e.name) == cityType) ==> CityTypeOf(r[0].name) == cityType)
  {
    hide OrderSensitive, Focus, VisitAll, IsOrder, CityTypeOf;
    VisitingOrderIrrelevant(res, order, priority, roadTokens);
    var cityType := priority[res[i].evidence.value];
    FocusKeepsCities(res[i], cityType);
    FocusOrder(res[i], cityType);
    var r := Focus(res[i], cityType).candidates;
    if e :| e in r && CityTypeOf(e.name) == cityType {
      var k :| 0 <= k < |r| && r[k] == e;
      assert k > 0 ==> CityTypeOf(r[0].name) == cityType;
    }
  }

  // ---------- Orders that differ ----------

  /** The positions below n except i, in order. */
  function Except(n: nat, i: nat): (order: seq<nat>)
    requires i < n
    ensures |order| == n - 1
    ensures forall k :: 0 <= k < n - 1 ==> order[k] == if k < i then k else k + 1
  {
    UpTo(n)[..i] + UpTo(n)[i + 1..]
  }

  lemma ExceptMembers(n: nat, i: nat)
    requires i < n
    ensures forall k: nat :: k in Except(n, i) <==> k < n && k != i
    ensures IsOrder(Except(n, i) + [i], n) && IsOrder([i] + Except(n, i), n)
  {
    var rest := Except(n, i);
    forall k: nat | k < n && k != i
      ensures k in rest
    {
      assert rest[if k < i then k else k - 1] == k;
    }
    var last, first := rest + [i], [i] + rest;
    assert forall k: nat :: k < n ==> k in last && k in first;
  }

  /** Some visits later: no new pinner, and those that are left are untouched. */
  ghost predicate Thinned(res: seq<ResolvedEvidence>, now: seq<ResolvedEvidence>, roadTokens: set<string>) {
    && |now| == |res|
    && forall k :: 0 <= k < |res| ==>
         && now[k].evidence == res[k].evidence
         && (Pinner(now[k], roadTokens) ==> now[k] == res[k])
  }

  /** A visit to a vanishing pinner empties it, and no visit makes a new one. */
  lemma VisitThins(res: seq<ResolvedEvidence>, now: seq<ResolvedEvidence>, i: nat, v: string,
                   priority: PrioritySet, roadTokens: set<string>)
    requires PinnersAre(res, v, priority, roadTokens) && Thinned(res, now, roadTokens) && i < |now|
    ensures Thinned(res, Visit(now, i, priority, roadTokens), roadTokens)
    ensures !Pinner(Visit(now, i, priority, roadTokens)[i], roadTokens)
  {
    hide Focus, HasCity;
    if Pinner(now[i], roadTokens) {
      assert forall k :: 0 <= k < |now| ==> !Pins(now[k], v, roadTokens);
      assert Lone(now, i, priority, roadTokens);
    }
    if Lone(now, i, priority, roadTokens) {
      FocusLeavesCities(now[i], priority[now[i].evidence.value]);
    }
  }

  lemma {:induction false} VisitsThin(res: seq<ResolvedEvidence>, now: seq<ResolvedEvidence>, order: seq<nat>,
                                      v: string,
                                      priority: PrioritySet, roadTokens: set<string>)
    requires PinnersAre(res, v, priority, roadTokens) && Thinned(res, now, roadTokens)
    requires forall k :: 0 <= k < |order| ==> order[k] < |now|
    ensures var r := VisitAll(now, order, priority, roadTokens);
            && Thinned(res, r, roadTokens)
            && (forall k :: 0 <= k < |r| && k !in order ==> r[k] == now[k])
            && (forall k :: 0 <= k < |r| && (k in order || !Pinner(now[k], roadTokens)) ==> !Pinner(r[k], roadTokens))
    decreases order
  {
    if order != [] {
      hide PinnersAre, Pinner, Lone, Focus;
      var i, rest := order[0], order[1..];
      var next := Visit(now, i, priority, roadTokens);
      VisitThins(res, now, i, v, priority, roadTokens);
      assert forall k :: k in order <==> k == i || k in rest;
      VisitsThin(res, next, rest, v, priority, roadTokens);
    }
  }

  /** Visiting the waiting token last finds no pinner, visiting it first finds one. */
  lemma LastAndFirstDiffer(res: seq<ResolvedEvidence>, i: nat, v: string, priority: PrioritySet,
                           roadTokens: set<string>)
    requires PinnersAre(res, v, priority, roadTokens) && i < |res| && Waits(res[i], priority, roadTokens)
    ensures forall k :: 0 <= k < |res| - 1 ==> Except(|res|, i)[k] < |res|
    ensures var rest := Except(|res|, i);
            VisitAll(res, rest + [i], priority, roadTokens)[i] != VisitAll(res, [i] + rest, priority, roadTokens)[i]
  {
    hide Focus, PinnersAre;
    var rest := Except(|res|, i);
    ExceptMembers(|res|, i);
    VisitsThin(res, res, rest, v, priority, roadTokens);
    var mid := VisitAll(res, rest, priority, roadTokens);
    assert mid[i] == res[i];
    assert forall k :: 0 <= k < |mid| ==> !Pinner(mid[k], roadTokens);
    assert Lone(mid, i, priority, roadTokens);
    VisitAllSnoc(res, rest, i, priority, roadTokens);
    PinnerBeside(res, i, v, priority, roadTokens);
    assert Visit(res, i, priority, roadTokens) == res;
    assert ([i] + rest)[1..] == rest;
  }

  lemma PinnerBeside(res: seq<ResolvedEvidence>, i: nat, v: string, priority: PrioritySet, roadTokens: set<string>)
    requires PinnersAre(res, v, priority, roadTokens) && i < |res| && res[i].evidence.value in roadTokens
    ensures HasOther(res, res[i].evidence.value, roadTokens)
  {
    var k :| 0 <= k < |res| && Pinner(res[k], roadTokens);
    assert Pins(res[k], res[i].evidence.value, roadTokens);
  }

  ghost predicate OrdersDiffer(res: seq<ResolvedEvidence>, order: seq<nat>, order': seq<nat>,
                               priority: PrioritySet, roadTokens: set<string>)
  {
    && IsOrder(order, |res|) && IsOrder(order', |res|)
    && VisitAll(res, order, priority, roadTokens) != VisitAll(res, order', priority, roadTokens)
  }

  lemma SettledTheSame(res: seq<ResolvedEvidence>, order: seq<nat>, order': seq<nat>,
                       priority: PrioritySet, roadTokens: set<string>)
    requires !OrderSensitive(res, priority, roadTokens)
    ensures !OrdersDiffer(res, order, order', priority, roadTokens)
  {
    hide OrderSensitive, Settled;
    if IsOrder(order, |res|) && IsOrder(order', |res|) {
      VisitingOrderIrrelevant(res, order, priority, roadTokens);
      VisitingOrderIrrelevant(res, order', priority, roadTokens);
    }
  }

  /** The exact condition: two visiting orders can give different results if and only if the
      evidence is order-sensitive. */
  lemma OrderMattersExactly(res: seq<ResolvedEvidence>, priority: PrioritySet, roadTokens: set<string>)
    ensures (exists order, order' :: OrdersDiffer(res, order, order', priority, roadTokens))
       <==> OrderSensitive(res, priority, roadTokens)
  {
    hide PinnersAre, Waits, VisitAll;
    if OrderSensitive(res, priority, roadTokens) {
      var v :| PinnersAre(res, v, priority, roadTokens);
      var i :| 0 <= i < |res| && Waits(res[i], priority, roadTokens);
      LastAndFirstDiffer(res, i, v, priority, roadTokens);
      var rest := Except(|res|, i);
      ExceptMembers(|res|, i);
      assert OrdersDiffer(res, rest + [i], [i] + rest, priority, roadTokens);
    } else {
      forall order, order'
        ensures !OrdersDiffer(res, order, order', priority, roadTokens)
      {
        SettledTheSame(res, order, order', priority, roadTokens);
      }
    }
  }

  /** Two common reasons why the order does not matter: every resolved priority token has a city,
      or no priority token is a road token. */
  lemma UsuallyInsensitive(res: seq<ResolvedEvidence>, priority: PrioritySet, roadTokens: set<string>)
    requires (forall k :: 0 <= k < |res| && IsPriority(res[k], priority) && res[k].candidates != [] ==> HasCity(res[k]))
          || (forall k :: 0 <= k < |res| && IsPriority(res[k], priority) ==> res[k].evidence.value !in roadTokens)
    ensures !OrderSensitive(res, priority, roadTokens)
  {
    hide Focus, HasCity;
  }

  // ---------- In place ----------

  /** One piece of evidence with the slice that holds its candidates. */
  class Slot {
    const evidence: Evidence
    const buf: array<Entity>
    var len: nat

    ghost predicate Valid()
      reads this
    {
      len <= buf.Length
    }

    ghost function Value(): ResolvedEvidence
      reads this, buf
      requires Valid()
    {
      ResolvedEvidence(evidence, buf[..len])
    }

    constructor (evidence: Evidence, buf: array<Entity>)
      ensures Valid() && this.evidence == evidence && this.buf == buf && len == buf.Length
    {
      this.evidence, this.buf, len := evidence, buf, buf.Length;
    }
  }

  /** Moves the cities to the front of the slice; returns how many there are. */
  method KeepCities(buf: array<Entity>, n: nat) returns (m: nat)
    requires n <= buf.Length
    modifies buf
    ensures m <= n && buf[..m] == Cities(old(buf[..n]))
  {
    hide Cities;
    ghost var was := buf[..n];
    m := 0;
    NoCities();
    for i := 0 to n
      invariant m <= i
      invariant buf[..m] == Cities(was[..i])
      invariant forall k :: i <= k < n ==> buf[k] == was[k]
    {
      CitiesSnoc(was, i);
      if buf[i].level == City {
        ghost var front := buf[..m];
        buf[m] := buf[i];
        m := m + 1;
        assert buf[..m] == front + [was[i]];
      }
    }
    assert was[..n] == was;
  }

  lemma NoCities()
    ensures Cities([]) == []
  {
  }

  lemma CitiesSnoc(es: seq<Entity>, i: nat)
    requires i < |es|
    ensures Cities(es[..i + 1]) == if es[i].level == City then Cities(es[..i]) + [es[i]] else Cities(es[..i])
  {
    assert es[..i + 1] == es[..i] + [es[i]];
    CitiesConcat(es[..i], [es[i]]);
    assert [es[i]][1..] == [] && Cities([es[i]]) == if es[i].level == City then [es[i]] else [];
  }

  /** One pass of the insertion: element i moves left past everything it comes before. */
  method Insert(buf: array<Entity>, i: nat, cityType: CityType)
    requires i < buf.Length
    requires exists es :: buf[..i] == PreferredFirst(es, cityType)
    modifies buf
    ensures buf[i + 1..] == old(buf[i + 1..])
    ensures forall es :: old(buf[..i]) == PreferredFirst(es, cityType) ==>
              buf[..i + 1] == PreferredFirst(es + [old(buf[i])], cityType)
  {
    hide PreferredFirst, Preferred;
    ghost var was := buf[..];
    ghost var sorted, x := was[..i], was[i];
    var j := i;
    while j > 0 && Preferred(buf[j], cityType) && !Preferred(buf[j - 1], cityType)
      invariant j <= i && buf[j] == x
      invariant forall k :: 0 <= k < j ==> buf[k] == sorted[k]
      invariant forall k :: j < k <= i ==> buf[k] == sorted[k - 1]
      invariant forall k :: i < k < buf.Length ==> buf[k] == was[k]
      invariant j < i ==> Preferred(x, cityType)
      invariant forall k :: j <= k < i ==> !Preferred(sorted[k], cityType)
    {
      buf[j], buf[j - 1] := buf[j - 1], buf[j];
      j := j - 1;
    }
    assert buf[..i + 1] == sorted[..j] + [x] + sorted[j..];
    forall es | sorted == PreferredFirst(es, cityType)
      ensures buf[..i + 1] == PreferredFirst(es + [x], cityType)
    {
      InsertedAt(es, x, j, cityType);
    }
  }

  lemma InsertedAt(es: seq<Entity>, x: Entity, j: nat, cityType: CityType)
    requires var sorted := PreferredFirst(es, cityType);
             && j <= |sorted|
             && (j < |sorted| ==> Preferred(x, cityType))
             && (forall k :: j <= k < |sorted| ==> !Preferred(sorted[k], cityType))
             && (j > 0 && Preferred(x, cityType) ==> Preferred(sorted[j - 1], cityType))
    ensures var sorted := PreferredFirst(es, cityType);
            sorted[..j] + [x] + sorted[j..] == PreferredFirst(es + [x], cityType)
  {
    hide Preferred;
    var sorted := PreferredFirst(es, cityType);
    var p, n := Those(es, cityType, true), Those(es, cityType, false);
    ThoseAre(es, cityType, true);
    ThoseAre(es, cityType, false);
    PreferredFirstSnoc(es, x, cityType);
    if Preferred(x, cityType) {
      forall k | 0 <= k < |p|
        ensures Preferred(sorted[k], cityType)
      {
        assert sorted[k] == p[k];
      }
      forall k | |p| <= k < |sorted|
        ensures !Preferred(sorted[k], cityType)
      {
        assert sorted[k] == n[k - |p|];
      }
      var next := j < |sorted| && Preferred(sorted[j], cityType);
      assert next <==> j < |p|;
      assert sorted[..j] == p && sorted[j..] == n;
    } else {
      assert sorted[..j] == sorted && sorted[j..] == [];
    }
  }

  method SortPreferredFirst(buf: array<Entity>, n: nat, cityType: CityType)
    requires n <= buf.Length
    modifies buf
    ensures buf[..n] == PreferredFirst(old(buf[..n]), cityType)
  {
    ghost var was := buf[..];
    for i := 0 to n
      invariant buf[..i] == PreferredFirst(was[..i], cityType)
      invariant buf[i..] == was[i..]
    {
      assert buf[i] == buf[i..][0] == was[i];
      assert buf[i + 1..] == buf[i..][1..] == was[i + 1..];
      assert was[..i + 1] == was[..i] + [was[i]];
      Insert(buf, i, cityType);
    }
  }

  /** The slices of different positions do not overlap. */
  ghost predicate Separate(slots: seq<Slot>)
    reads slots
  {
    && (forall i :: 0 <= i < |slots| ==> slots[i].Valid())
    && (forall i, j :: 0 <= i < j < |slots| ==> slots[i] != slots[j] && slots[i].buf != slots[j].buf)
  }

  ghost function Buffers(slots: seq<Slot>): set<array<Entity>> {
    set i | 0 <= i < |slots| :: slots[i].buf
  }

  ghost function Values(slots: seq<Slot>): (r: seq<ResolvedEvidence>)
    reads slots, Buffers(slots)
    requires forall i :: 0 <= i < |slots| ==> slots[i].Valid()
    ensures |r| == |slots| && forall i :: 0 <= i < |slots| ==> r[i] == slots[i].Value()
  {
    seq(|slots|, i requires 0 <= i < |slots| && slots[i].Valid() reads slots, Buffers(slots) => slots[i].Value())
  }

  method HasOtherLocationEvidence(slots: seq<Slot>, priorityValue: string, roadTokens: set<string>) returns (r: bool)
    requires forall i :: 0 <= i < |slots| ==> slots[i].Valid()
    ensures r == HasOther(Values(slots), priorityValue, roadTokens)
  {
    ghost var res := Values(slots);
    for i := 0 to |slots|
      invariant forall k :: 0 <= k < i ==> !Pins(res[k], priorityValue, roadTokens)
    {
      assert res[i] == slots[i].Value();
      assert slots[i].len == 0 <==> res[i].candidates == [];
      if slots[i].evidence.value == priorityValue {
        continue;
      }
      if slots[i].len == 0 {
        continue;
      }
      if slots[i].evidence.value in roadTokens {
        continue;
      }
      if slots[i].evidence.kind == PlaceName || slots[i].evidence.kind == PostalCode {
        assert Pins(res[i], priorityValue, roadTokens);
        return true;
      }
    }
    return false;
  }

  /** Filters and sorts the slice of one lone token. */
  method FocusSlot(slot: Slot, cityType: CityType)
    requires slot.Valid()
    modifies slot`len, slot.buf
    ensures slot.Valid() && slot.Value() == Focus(old(slot.Value()), cityType)
  {
    var m := KeepCities(slot.buf, slot.len);
    slot.len := m;
    SortPreferredFirst(slot.buf, slot.len, cityType);
  }

  lemma {:induction false} VisitAllSnoc(res: seq<ResolvedEvidence>, order: seq<nat>, i: nat,
                                        priority: PrioritySet, roadTokens: set<string>)
    requires i < |res| && forall k :: 0 <= k < |order| ==> order[k] < |res|
    ensures VisitAll(res, order + [i], priority, roadTokens)
         == Visit(VisitAll(res, order, priority, roadTokens), i, priority, roadTokens)
    decreases order
  {
    hide Visit;
    if order == [] {
      assert order + [i] == [i] && [i][1..] == [];
      assert |Visit(res, i, priority, roadTokens)| == |res| by {
        VisitLength(res, i, priority, roadTokens);
      }
    } else {
      VisitLength(res, order[0], priority, roadTokens);
      assert (order + [i])[1..] == order[1..] + [i];
      VisitAllSnoc(Visit(res, order[0], priority, roadTokens), order[1..], i, priority, roadTokens);
    }
  }

  lemma VisitLength(res: seq<ResolvedEvidence>, i: nat, priority: PrioritySet, roadTokens: set<string>)
    requires i < |res|
    ensures |Visit(res, i, priority, roadTokens)| == |res|
  {
  }

  function UpTo(n: nat): (s: seq<nat>)
    ensures |s| == n && forall i :: 0 <= i < n ==> s[i] == i
  {
    if n == 0 then [] else UpTo(n - 1) + [n - 1]
  }

  method ApplyCityPriority(slots: seq<Slot>, priority: PrioritySet, roadTokens: set<string>)
    requires Separate(slots)
    modifies slots, Buffers(slots)
    ensures Separate(slots)
    ensures Values(slots) == VisitAll(old(Values(slots)), UpTo(|slots|), priority, roadTokens)
  {
    ghost var was := Values(slots);
    if |priority| == 0 {
      NothingToDo(was, UpTo(|slots|), priority, roadTokens);
      return;
    }
    for i := 0 to |slots|
      invariant Separate(slots)
      invariant Values(slots) == VisitAll(was, UpTo(i), priority, roadTokens)
    {
      VisitAllSnoc(was, UpTo(i), i, priority, roadTokens);
      VisitSlot(slots, i, priority, roadTokens);
    }
  }

  lemma {:induction false} NothingToDo(res: seq<ResolvedEvidence>, order: seq<nat>, priority: PrioritySet,
                                       roadTokens: set<string>)
    requires |priority| == 0 && forall k :: 0 <= k < |order| ==> order[k] < |res|
    ensures VisitAll(res, order, priority, roadTokens) == res
    decreases order
  {
    if order != [] {
      NothingToDo(res, order[1..], priority, roadTokens);
    }
  }

  method VisitSlot(slots: seq<Slot>, i: nat, priority: PrioritySet, roadTokens: set<string>)
    requires Separate(slots) && i < |slots|
    modifies slots[i], slots[i].buf
    ensures Separate(slots)
    ensures Values(slots) == Visit(old(Values(slots)), i, priority, roadTokens)
  {
    hide Focus;
    ghost var was := Values(slots);
    var slot := slots[i];
    if slot.evidence.kind != PlaceName {
      return;
    }
    if slot.evidence.value !in priority {
      return;
    }
    var other := HasOtherLocationEvidence(slots, slot.evidence.value, roadTokens);
    if other {
      return;
    }
    FocusSlot(slot, priority[slot.evidence.value]);
    assert forall k :: 0 <= k < |slots| && k != i ==> slots[k].Value() == was[k];
  }
}
