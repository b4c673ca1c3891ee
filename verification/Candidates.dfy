/**
 Candidate discovery: the distinct entities of the resolved evidence, grouped by level, and one
 candidate for each of them with only its own level filled.
 */
module Candidates {
  import opened Wrappers
  import opened Decimal
  import opened Model
  import Normalizer

  // ---------- Distinct entities ----------

  /** All candidates of the non-postal evidence, in order. */
  function Offered(resolved: seq<ResolvedEvidence>): seq<Entity> {
    if resolved == [] then []
    else (if resolved[0].evidence.kind == PostalCode then [] else resolved[0].candidates) + Offered(resolved[1..])
  }

  /** First occurrences of ids outside `seen`. */
  function Fresh(es: seq<Entity>, seen: set<Int64>): seq<Entity>
    decreases es
  {
    if es == [] then []
    else if es[0].id in seen then Fresh(es[1..], seen)
    else [es[0]] + Fresh(es[1..], seen + {es[0].id})
  }

  function Unique(resolved: seq<ResolvedEvidence>): seq<Entity> {
    Fresh(Offered(resolved), {})
  }

  function OfLevel(es: seq<Entity>, level: Level): seq<Entity> {
    if es == [] then [] else (if es[0].level == level then [es[0]] else []) + OfLevel(es[1..], level)
  }

  lemma {:induction false} OfLevelConcat(a: seq<Entity>, b: seq<Entity>, level: Level)
    ensures OfLevel(a + b, level) == OfLevel(a, level) + OfLevel(b, level)
  {
    if a == [] {
      assert a + b == b;
    } else {
      assert (a + b)[1..] == a[1..] + b;
      OfLevelConcat(a[1..], b, level);
      var first := if a[0].level == level then [a[0]] else [];
      var rest, tail := OfLevel(a[1..], level), OfLevel(b, level);
      assert first + (rest + tail) == (first + rest) + tail;
    }
  }

  lemma OfLevelSnoc(es: seq<Entity>, e: Entity, level: Level)
    ensures OfLevel(es + [e], level) == OfLevel(es, level) + if e.level == level then [e] else []
  {
    OfLevelConcat(es, [e], level);
    assert [e][1..] == [];
  }

  lemma {:induction false} FreshConcat(a: seq<Entity>, b: seq<Entity>, seen: set<Int64>)
    ensures Fresh(a + b, seen) == Fresh(a, seen) + Fresh(b, seen + Ids(a))
    decreases a
  {
    if a == [] {
      assert a + b == b && seen + Ids(a) == seen;
    } else {
      assert (a + b)[1..] == a[1..] + b;
      IdsCons(a);
      if a[0].id in seen {
        FreshConcat(a[1..], b, seen);
        assert seen + Ids(a) == seen + Ids(a[1..]);
      } else {
        FreshConcat(a[1..], b, seen + {a[0].id});
        assert seen + Ids(a) == seen + {a[0].id} + Ids(a[1..]);
      }
    }
  }

  lemma IdsCons(es: seq<Entity>)
    requires es != []
    ensures Ids(es) == {es[0].id} + Ids(es[1..])
  {
    assert forall x :: x in es <==> x == es[0] || x in es[1..];
  }

  lemma {:induction false} FreshIs(es: seq<Entity>, seen: set<Int64>)
    ensures NoRepeats(Fresh(es, seen))
    ensures forall e :: e in Fresh(es, seen) ==> e in es && e.id !in seen
    ensures Ids(Fresh(es, seen)) == Ids(es) - seen
    decreases es
  {
    if es != [] {
      IdsCons(es);
      if es[0].id in seen {
        FreshIs(es[1..], seen);
      } else {
        var rest := Fresh(es[1..], seen + {es[0].id});
        FreshIs(es[1..], seen + {es[0].id});
        forall j | 0 <= j < |rest|
          ensures rest[j].id != es[0].id
        {
          assert rest[j] in rest;
        }
        IdsCons([es[0]] + rest);
      }
    }
  }

  lemma {:induction false} FreshOfNew(es: seq<Entity>, seen: set<Int64>)
    requires NoRepeats(es) && forall e :: e in es ==> e.id !in seen
    ensures Fresh(es, seen) == es
    decreases es
  {
    if es != [] {
      forall e | e in es[1..]
        ensures e.id !in seen + {es[0].id}
      {
        var k :| 0 <= k < |es| - 1 && es[1..][k] == e;
        assert es[k + 1] == e;
      }
      FreshOfNew(es[1..], seen + {es[0].id});
    }
  }

  lemma {:induction false} OfferedConcat(a: seq<ResolvedEvidence>, b: seq<ResolvedEvidence>)
    ensures Offered(a + b) == Offered(a) + Offered(b)
  {
    if a == [] {
      assert a + b == b;
    } else {
      assert (a + b)[1..] == a[1..] + b;
      OfferedConcat(a[1..], b);
      var first := if a[0].evidence.kind == PostalCode then [] else a[0].candidates;
      var rest, tail := Offered(a[1..]), Offered(b);
      assert first + (rest + tail) == (first + rest) + tail;
    }
  }

  lemma {:induction false} OfferedIn(resolved: seq<ResolvedEvidence>, e: Entity)
    requires e in Offered(resolved)
    ensures exists i :: 0 <= i < |resolved| && e in resolved[i].candidates
  {
    if resolved[0].evidence.kind == PostalCode || e !in resolved[0].candidates {
      OfferedIn(resolved[1..], e);
      var i :| 0 <= i < |resolved| - 1 && e in resolved[1..][i].candidates;
      assert resolved[i + 1] == resolved[1..][i];
    }
  }

  /** An entity is offered exactly when some item other than a postal code has it as a candidate. */
  lemma {:induction false} OfferedMembers(resolved: seq<ResolvedEvidence>)
    ensures forall e :: e in Offered(resolved) <==>
              exists i :: 0 <= i < |resolved| && resolved[i].evidence.kind != PostalCode && e in resolved[i].candidates
  {
    if resolved != [] {
      var rest := resolved[1..];
      OfferedMembers(rest);
      assert forall i :: 0 < i < |resolved| ==> resolved[i] == rest[i - 1];
      assert forall i :: 0 <= i < |rest| ==> rest[i] == resolved[i + 1];
    }
  }

  type EntitiesByLevel = map<Level, seq<Entity>>

  function ListAt(m: EntitiesByLevel, level: Level): seq<Entity> {
    if level in m then m[level] else []
  }

  ghost predicate Groups(m: EntitiesByLevel, es: seq<Entity>) {
    forall level :: ListAt(m, level) == OfLevel(es, level)
  }

  lemma GroupsSnoc(m: EntitiesByLevel, es: seq<Entity>, e: Entity)
    requires Groups(m, es)
    ensures Groups(m[e.level := ListAt(m, e.level) + [e]], es + [e])
  {
    hide OfLevel;
    var m' := m[e.level := ListAt(m, e.level) + [e]];
    forall level
      ensures ListAt(m', level) == OfLevel(es + [e], level)
    {
      OfLevelSnoc(es, e, level);
    }
  }

  method CollectUniqueEntities(resolved: seq<ResolvedEvidence>) returns (entities: EntitiesByLevel)
    ensures Groups(entities, Unique(resolved))
  {
    hide Groups, Offered, Fresh;
    var seen: set<Int64> := {};
    entities := map[];
    NoGroups();
    assert resolved[..0] == [];
    NothingOffered();
    for i := 0 to |resolved|
      invariant seen == Ids(Offered(resolved[..i]))
      invariant Groups(entities, Unique(resolved[..i]))
    {
      OfferedSnoc(resolved[..i], resolved[i]);
      assert resolved[..i + 1] == resolved[..i] + [resolved[i]];
      if resolved[i].evidence.kind == PostalCode {
        continue;
      }
      ghost var before := Offered(resolved[..i]);
      seen, entities := AddEntities(before, resolved[i].candidates, seen, entities);
    }
    assert resolved[..|resolved|] == resolved;
  }

  /** The inner loop over the candidates of one piece of evidence. */
  method AddEntities(ghost before: seq<Entity>, es: seq<Entity>, seen: set<Int64>, entities: EntitiesByLevel)
    returns (seen': set<Int64>, entities': EntitiesByLevel)
    requires seen == Ids(before) && Groups(entities, Fresh(before, {}))
    ensures seen' == Ids(before + es) && Groups(entities', Fresh(before + es, {}))
  {
    hide Groups, Fresh, Ids, ListAt;
    seen', entities' := seen, entities;
    assert before + es[..0] == before;
    for k := 0 to |es|
      invariant seen' == Ids(before + es[..k]) && Groups(entities', Fresh(before + es[..k], {}))
    {
      var c := es[k];
      ghost var sofar := before + es[..k];
      assert before + es[..k + 1] == sofar + [c];
      FreshSnoc(sofar, c);
      if c.id in seen' {
        continue;
      }
      GroupsSnoc(entities', Fresh(sofar, {}), c);
      seen' := seen' + {c.id};
      entities' := entities'[c.level := ListAt(entities', c.level) + [c]];
    }
    assert before + es[..|es|] == before + es;
  }

  lemma FreshSnoc(es: seq<Entity>, e: Entity)
    ensures Fresh(es + [e], {}) == if e.id in Ids(es) then Fresh(es, {}) else Fresh(es, {}) + [e]
    ensures Ids(es + [e]) == Ids(es) + {e.id}
  {
    FreshConcat(es, [e], {});
    assert [e][1..] == [] && {} + Ids(es) == Ids(es);
    assert forall x :: x in es + [e] <==> x in es || x == e;
  }

  lemma NoGroups()
    ensures Groups(map[], [])
  {
  }

  lemma NothingOffered()
    ensures Offered([]) == [] && Unique([]) == [] && Ids([]) == {}
  {
  }

  lemma OfferedSnoc(resolved: seq<ResolvedEvidence>, re: ResolvedEvidence)
    ensures Offered(resolved + [re])
         == if re.evidence.kind == PostalCode then Offered(resolved) else Offered(resolved) + re.candidates
  {
    OfferedConcat(resolved, [re]);
    assert [re][1..] == [];
  }

  // ---------- One candidate per entity ----------

  function RegionOfEntity(e: Entity, postalCode: string): Region {
    Region(e.id, e.name, Normalizer.Normalize(e.name), postalCode)
  }

  /** The location with only the entity's own level filled. */
  function SeedLocation(e: Entity): AdminLocation {
    match e.level
    case Province => EMPTY_LOCATION.(province := Some(RegionOfEntity(e, "")))
    case City => EMPTY_LOCATION.(city := Some(RegionOfEntity(e, e.postalCode)))
    case District => EMPTY_LOCATION.(district := Some(RegionOfEntity(e, "")))
    case SubDistrict => EMPTY_LOCATION.(subDistrict := Some(RegionOfEntity(e, e.postalCode)))
    case OtherLevel(_) => EMPTY_LOCATION
  }

  function Seed(e: Entity, strategies: seq<Strategy>): AdminCandidate {
    AdminCandidate(e.level, SeedLocation(e), [], strategies)
  }

  function Seeds(es: seq<Entity>, strategies: seq<Strategy>): (r: seq<AdminCandidate>)
    ensures |r| == |es| && forall i :: 0 <= i < |es| ==> r[i] == Seed(es[i], strategies)
  {
    if es == [] then [] else [Seed(es[0], strategies)] + Seeds(es[1..], strategies)
  }

  /** The distinct entities of the four levels, provinces first. */
  function Origins(resolved: seq<ResolvedEvidence>): seq<Entity> {
    var es := Unique(resolved);
    OfLevel(es, Province) + OfLevel(es, City) + OfLevel(es, District) + OfLevel(es, SubDistrict)
  }

  function Discovered(resolved: seq<ResolvedEvidence>, strategies: seq<Strategy>): seq<AdminCandidate> {
    Seeds(Origins(resolved), strategies)
  }

  method BuildFrom(entities: seq<Entity>) returns (candidates: seq<AdminCandidate>)
    ensures candidates == Seeds(entities, [])
  {
    candidates := [];
    for i := 0 to |entities|
      invariant |candidates| == i && forall k :: 0 <= k < i ==> candidates[k] == Seed(entities[k], [])
    {
      var e := entities[i];
      candidates := candidates + [AdminCandidate(e.level, SeedLocation(e), [], [])];
    }
  }

  method DiscoverCandidates(resolved: seq<ResolvedEvidence>, strategies: seq<Strategy>)
    returns (candidates: seq<AdminCandidate>)
    ensures candidates == Discovered(resolved, strategies)
  {
    hide Seed, Unique, OfLevel, Seeds;
    var entities := CollectUniqueEntities(resolved);
    var ps := BuildFrom(ListAt(entities, Province));
    var cs := BuildFrom(ListAt(entities, City));
    var ds := BuildFrom(ListAt(entities, District));
    var ss := BuildFrom(ListAt(entities, SubDistrict));
    candidates := ps + cs + ds + ss;
    ghost var es := Origins(resolved);
    SeedsOfParts(ListAt(entities, Province), ListAt(entities, City), ListAt(entities, District),
                 ListAt(entities, SubDistrict));
    assert candidates == Seeds(es, []);
    for i := 0 to |candidates|
      invariant |candidates| == |es|
      invariant forall k :: 0 <= k < |es| ==> candidates[k] == Seed(es[k], if k < i then strategies else [])
    {
      WithStrategies(es[i], strategies);
      candidates := candidates[i := candidates[i].(strategies := strategies)];
    }
  }

  lemma WithStrategies(e: Entity, strategies: seq<Strategy>)
    ensures Seed(e, []).(strategies := strategies) == Seed(e, strategies)
  {
  }

  lemma SeedsOfParts(a: seq<Entity>, b: seq<Entity>, c: seq<Entity>, d: seq<Entity>)
    ensures Seeds(a, []) + Seeds(b, []) + Seeds(c, []) + Seeds(d, []) == Seeds(a + b + c + d, [])
  {
    hide Seed, Seeds;
  }
}
