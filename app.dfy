/**
 * The application state of src/App.jsx: the persona registry (built-ins plus
 * custom personas, explicit order, hidden ids, selection) and the entry store
 * (diary entries kept as the JSON objects the app stores and reloads).
 * The derivations and load-time filters are functions; the state and its
 * handlers are the class `DiaryApp`.
 */
module App {
  import opened Common
  import opened JsonValue
  import opened Personas
  import opened Api

  // ---------------------------------------------------------------------------
  // Persona registry: derived lists

  /** `[...DEFAULT_PERSONAS, ...customPersonas]`: the registry in encounter order. */
  function AllPersonasRaw(customs: seq<Persona>): (r: seq<Persona>)
    ensures |r| == |DefaultPersonas| + |customs|
    ensures r[..|DefaultPersonas|] == DefaultPersonas && r[|DefaultPersonas|..] == customs
  {
    DefaultPersonas + customs
  }

  /** `ps.find(p => p.id === id)`: the first persona with that id. */
  function FindById(ps: seq<Persona>, id: string): (r: Option<Persona>)
    ensures r.Some? <==> id in Ids(ps)
    ensures r.Some? ==> r.value in ps && r.value.id == id
    ensures r.Some? ==> FirstWithId(ps, id, r.value)
    ensures ps != [] && ps[0].id == id ==> r == Some(ps[0])
    ensures ps != [] && ps[0].id != id ==> r == FindById(ps[1..], id)
  {
    if ps == [] then None
    else if ps[0].id == id then Some(ps[0])
    else
      var r := FindById(ps[1..], id);
      IdsCons(ps);
      FirstMatchShift(ps, id, r);
      r
  }

  /** `p` is the first persona of `ps` with that id. */
  predicate FirstWithId(ps: seq<Persona>, id: string, p: Persona)
  {
    exists k :: 0 <= k < |ps| && ps[k] == p && forall j :: 0 <= j < k ==> ps[j].id != id
  }

  /** A first match in the tail stays the first match once a persona with another id is put in front. */
  lemma FirstMatchShift(ps: seq<Persona>, id: string, r: Option<Persona>)
    requires ps != [] && ps[0].id != id
    requires r.Some? ==> FirstWithId(ps[1..], id, r.value)
    ensures r.Some? ==> FirstWithId(ps, id, r.value)
  {
    if r.Some? {
      var k :| 0 <= k < |ps[1..]| && ps[1..][k] == r.value && forall j :: 0 <= j < k ==> ps[1..][j].id != id;
      assert ps[k + 1] == r.value;
      forall j | 0 <= j < k + 1 ensures ps[j].id != id {
        if j > 0 { assert ps[j] == ps[1..][j - 1]; }
      }
    }
  }

  lemma IdsCons(ps: seq<Persona>)
    requires ps != []
    ensures Ids(ps) == [ps[0].id] + Ids(ps[1..])
  {
  }

  /** `order.map(id => raw.find(p => p.id === id)).filter(Boolean)`. */
  function Resolved(order: seq<string>, raw: seq<Persona>): (r: seq<Persona>)
    ensures |r| <= |order|
    ensures forall p :: p in r ==> p in raw && p.id in order
  {
    if order == [] then []
    else
      var rest := Resolved(order[1..], raw);
      match FindById(raw, order[0])
      case Some(p) => [p] + rest
      case None => rest
  }

  /** `raw.filter(p => !order.includes(p.id))`: the personas the order does not mention. */
  function Unordered(raw: seq<Persona>, order: seq<string>): (r: seq<Persona>)
    ensures |r| <= |raw|
    ensures forall p :: p in r <==> p in raw && p.id !in order
  {
    if raw == [] then []
    else
      var rest := Unordered(raw[1..], order);
      assert raw == [raw[0]] + raw[1..];
      if raw[0].id !in order then [raw[0]] + rest else rest
  }

  /**
   * The effective persona list: with an explicit order, the personas its ids
   * resolve to (unresolvable ids dropped) followed by every persona the order
   * does not mention; with an empty order, the registry unchanged.
   */
  function ResolveOrder(order: seq<string>, raw: seq<Persona>): (r: seq<Persona>)
    ensures order == [] ==> r == raw
    ensures forall p :: p in r ==> p in raw
    ensures forall p :: p in raw ==> exists q :: q in r && q.id == p.id
  {
    if order == [] then raw
    else
      var r := Resolved(order, raw) + Unordered(raw, order);
      assert forall p :: p in raw ==> exists q :: q in r && q.id == p.id by {
        forall p | p in raw ensures exists q :: q in r && q.id == p.id {
          if p.id in order {
            ResolvedReaches(order, raw, p.id);
          }
        }
      }
      r
  }

  /** An ordered id that names a persona has that id's first persona in the resolved part. */
  lemma {:induction false} ResolvedReaches(order: seq<string>, raw: seq<Persona>, id: string)
    requires id in order && id in Ids(raw)
    ensures FindById(raw, id).value in Resolved(order, raw)
  {
    if order[0] != id {
      ResolvedReaches(order[1..], raw, id);
    }
  }

  /** The resolved part lists exactly the ordered ids that name a persona, in the order's order. */
  lemma {:induction false} ResolvedIds(order: seq<string>, raw: seq<Persona>)
    ensures Ids(Resolved(order, raw)) == KnownIds(order, Ids(raw))
  {
    if order != [] {
      ResolvedIds(order[1..], raw);
      var rest := Resolved(order[1..], raw);
      match FindById(raw, order[0])
      case Some(p) =>
        IdsAppend([p], rest);
        assert Ids([p]) == [order[0]];
      case None =>
    }
  }

  /** `Ids` distributes over concatenation. */
  lemma IdsAppend(a: seq<Persona>, b: seq<Persona>)
    ensures Ids(a + b) == Ids(a) + Ids(b)
  {
  }

  /**
   * With a non-empty order, the effective list's ids are the ordered ids that
   * name a persona, in the order's order, then the ids of the personas the
   * order leaves out, in registry order.
   */
  lemma EffectiveOrderIds(order: seq<string>, raw: seq<Persona>)
    requires order != []
    ensures Ids(ResolveOrder(order, raw)) == KnownIds(order, Ids(raw)) + Ids(Unordered(raw, order))
  {
    ResolvedIds(order, raw);
    IdsAppend(Resolved(order, raw), Unordered(raw, order));
  }

  /** `ids.filter(id => known.includes(id))`. */
  function KnownIds(ids: seq<string>, known: seq<string>): (r: seq<string>)
    ensures forall id :: id in r <==> id in ids && id in known
  {
    if ids == [] then []
    else
      var rest := KnownIds(ids[1..], known);
      assert ids == [ids[0]] + ids[1..];
      if ids[0] in known then [ids[0]] + rest else rest
  }

  /** No id occurs twice. */
  predicate NoDuplicates(ids: seq<string>)
  {
    forall i, j :: 0 <= i < j < |ids| ==> ids[i] != ids[j]
  }

  /** `raw.filter(p => ids.includes(p.id))`. */
  function Mentioned(raw: seq<Persona>, ids: seq<string>): (r: seq<Persona>)
    ensures forall p :: p in r ==> p in raw && p.id in ids
  {
    if raw == [] then []
    else
      var rest := Mentioned(raw[1..], ids);
      if raw[0].id in ids then [raw[0]] + rest else rest
  }

  lemma {:induction false} MentionedNothing(raw: seq<Persona>)
    ensures Mentioned(raw, []) == []
  {
    if raw != [] {
      MentionedNothing(raw[1..]);
    }
  }

  lemma {:induction false} MentionedAndUnordered(raw: seq<Persona>, ids: seq<string>)
    ensures multiset(Mentioned(raw, ids)) + multiset(Unordered(raw, ids)) == multiset(raw)
  {
    if raw != [] {
      MentionedAndUnordered(raw[1..], ids);
      assert raw == [raw[0]] + raw[1..];
      if raw[0].id in ids {
        assert Mentioned(raw, ids) == [raw[0]] + Mentioned(raw[1..], ids);
        assert Unordered(raw, ids) == Unordered(raw[1..], ids);
      } else {
        assert Mentioned(raw, ids) == Mentioned(raw[1..], ids);
        assert Unordered(raw, ids) == [raw[0]] + Unordered(raw[1..], ids);
      }
    }
  }

  /** With distinct ids, the personas mentioned by a single id are that id's persona, if any. */
  lemma {:induction false} MentionedSingle(raw: seq<Persona>, id: string)
    requires DistinctIds(raw)
    ensures Mentioned(raw, [id]) == match FindById(raw, id) case Some(p) => [p] case None => []
  {
    if raw != [] {
      DistinctTail(raw);
      MentionedSingle(raw[1..], id);
      if raw[0].id == id {
        assert FindById(raw[1..], id).None?;
      }
    }
  }

  lemma {:induction false} MentionedCons(raw: seq<Persona>, id: string, rest: seq<string>)
    requires id !in rest
    ensures multiset(Mentioned(raw, [id] + rest)) == multiset(Mentioned(raw, [id])) + multiset(Mentioned(raw, rest))
  {
    if raw != [] {
      MentionedCons(raw[1..], id, rest);
    }
  }

  lemma NoDuplicatesTail(ids: seq<string>)
    requires ids != [] && NoDuplicates(ids)
    ensures NoDuplicates(ids[1..]) && ids[0] !in ids[1..]
  {
    var rest := ids[1..];
    forall i, j | 0 <= i < j < |rest| ensures rest[i] != rest[j] {
      assert rest[i] == ids[i + 1] && rest[j] == ids[j + 1];
    }
    forall k | 0 <= k < |rest| ensures rest[k] != ids[0] {
      assert rest[k] == ids[k + 1];
    }
  }

  lemma {:induction false} ResolvedIsMentioned(order: seq<string>, raw: seq<Persona>)
    requires DistinctIds(raw) && NoDuplicates(order)
    ensures multiset(Resolved(order, raw)) == multiset(Mentioned(raw, order))
  {
    if order == [] {
      MentionedNothing(raw);
    } else {
      var rest := order[1..];
      NoDuplicatesTail(order);
      ResolvedIsMentioned(rest, raw);
      MentionedSingle(raw, order[0]);
      assert order == [order[0]] + rest;
      MentionedCons(raw, order[0], rest);
      match FindById(raw, order[0])
      case Some(p) =>
        assert Resolved(order, raw) == [p] + Resolved(rest, raw);
        assert multiset(Mentioned(raw, order)) == multiset{p} + multiset(Mentioned(raw, rest));
      case None =>
        assert Resolved(order, raw) == Resolved(rest, raw);
        assert multiset(Mentioned(raw, order)) == multiset(Mentioned(raw, rest));
    }
  }

  /**
   * When the registry's ids are distinct and the order repeats no id, the
   * effective list is a permutation of the registry: nothing is lost and
   * nothing is shown twice.
   */
  lemma ResolveOrderIsPermutation(order: seq<string>, raw: seq<Persona>)
    requires DistinctIds(raw) && NoDuplicates(order)
    ensures multiset(ResolveOrder(order, raw)) == multiset(raw)
  {
    if order != [] {
      ResolvedIsMentioned(order, raw);
      MentionedAndUnordered(raw, order);
    }
  }

  /** Reordering to ["b", "a"] a registry holding a, b, c in that order gives b, a, c. */
  lemma ReorderScenario(pa: Persona, pb: Persona, pc: Persona)
    requires pa.id == "a" && pb.id == "b" && pc.id == "c"
    ensures ResolveOrder(["b", "a"], [pa, pb, pc]) == [pb, pa, pc]
  {
    ScenarioResolved(pa, pb, pc);
    ScenarioUnordered(pa, pb, pc);
    assert [pb, pa] + [pc] == [pb, pa, pc];
  }

  lemma ScenarioResolved(pa: Persona, pb: Persona, pc: Persona)
    requires pa.id == "a" && pb.id == "b" && pc.id == "c"
    ensures Resolved(["b", "a"], [pa, pb, pc]) == [pb, pa]
  {
    var raw := [pa, pb, pc];
    assert raw[1..] == [pb, pc];
    assert ["b", "a"][1..] == ["a"] && ["a"][1..] == [];
    assert FindById(raw, "a") == Some(pa);
    assert FindById(raw, "b") == Some(pb) by {
      assert FindById(raw[1..], "b") == Some(pb);
    }
  }

  lemma ScenarioUnordered(pa: Persona, pb: Persona, pc: Persona)
    requires pa.id == "a" && pb.id == "b" && pc.id == "c"
    ensures Unordered([pa, pb, pc], ["b", "a"]) == [pc]
  {
    var order := ["b", "a"];
    assert "c" !in order;
    assert [pa, pb, pc][1..] == [pb, pc] && [pb, pc][1..] == [pc] && [pc][1..] == [];
    assert Unordered([pc], order) == [pc];
    assert Unordered([pb, pc], order) == [pc];
  }

  /** `all.filter(p => !hiddenPersonaIds.includes(p.id))`. */
  function Visible(all: seq<Persona>, hidden: seq<string>): (r: seq<Persona>)
    ensures |r| <= |all|
    ensures forall p :: p in r <==> p in all && p.id !in hidden
  {
    Unordered(all, hidden)
  }

  /** Hiding keeps the relative order: the visible list of a concatenation is the concatenation of the visible lists. */
  lemma {:induction false} VisibleAppend(a: seq<Persona>, b: seq<Persona>, hidden: seq<string>)
    ensures Visible(a + b, hidden) == Visible(a, hidden) + Visible(b, hidden)
  {
    if a == [] {
      assert a + b == b;
    } else {
      assert (a + b)[1..] == a[1..] + b;
      VisibleAppend(a[1..], b, hidden);
    }
  }

  // ---------------------------------------------------------------------------
  // Persona registry: id-list updates

  /** `ids.filter(x => x !== id)`. */
  function DropId(ids: seq<string>, id: string): (r: seq<string>)
    ensures |r| <= |ids|
    ensures forall x :: x in r <==> x in ids && x != id
    ensures id !in ids ==> r == ids
  {
    if ids == [] then []
    else
      var rest := DropId(ids[1..], id);
      assert ids == [ids[0]] + ids[1..];
      if ids[0] != id then [ids[0]] + rest else rest
  }

  /** `customs.filter(p => p.id !== id)`. */
  function DropPersona(ps: seq<Persona>, id: string): (r: seq<Persona>)
    ensures |r| <= |ps|
    ensures forall p :: p in r <==> p in ps && p.id != id
  {
    Unordered(ps, [id])
  }

  /** `ids.includes(id) ? ids.filter(x => x !== id) : [...ids, id]`. */
  function Toggled(ids: seq<string>, id: string): (r: seq<string>)
    ensures id in r <==> id !in ids
    ensures forall x :: x != id ==> (x in r <==> x in ids)
  {
    if id in ids then DropId(ids, id) else ids + [id]
  }

  /** Toggling twice restores the set of ids, and the list itself when the id was absent. */
  lemma ToggleTwice(ids: seq<string>, id: string)
    ensures forall x :: x in Toggled(Toggled(ids, id), id) <==> x in ids
    ensures id !in ids ==> Toggled(Toggled(ids, id), id) == ids
  {
    if id !in ids {
      assert DropId(ids + [id], id) == ids by {
        DropIdAppend(ids, [id], id);
      }
    }
  }

  lemma {:induction false} DropIdAppend(a: seq<string>, b: seq<string>, id: string)
    ensures DropId(a + b, id) == DropId(a, id) + DropId(b, id)
  {
    if a == [] {
      assert a + b == b;
    } else {
      assert (a + b)[1..] == a[1..] + b;
      DropIdAppend(a[1..], b, id);
    }
  }

  /** The two directions a persona can be moved in the settings list. */
  datatype Direction = Up | Down

  /** The order a move works on: the explicit order, or the registry's ids when it is empty. */
  function CurrentOrder(order: seq<string>, raw: seq<Persona>): (r: seq<string>)
    ensures order != [] ==> r == order
    ensures order == [] ==> r == Ids(raw)
  {
    if |order| > 0 then order else Ids(raw)
  }

  /** `s.indexOf(x)`: the first position of `x`, or -1. */
  function IndexOf(s: seq<string>, x: string): (i: int)
    ensures -1 <= i < |s|
    ensures i == -1 <==> x !in s
    ensures 0 <= i ==> s[i] == x && forall j :: 0 <= j < i ==> s[j] != x
  {
    if s == [] then -1
    else if s[0] == x then 0
    else
      var k := IndexOf(s[1..], x);
      assert forall j :: 1 <= j < |s| ==> s[j] == s[1..][j - 1];
      if k == -1 then -1 else k + 1
  }

  function Target(index: int, dir: Direction): int
  {
    if dir == Up then index - 1 else index + 1
  }

  /**
   * The order after moving `id` one step: its first occurrence swapped with the
   * neighbour above or below; `None` (no change) when the id is not in the
   * order or the neighbour would fall outside it.
   */
  function Moved(cur: seq<string>, id: string, dir: Direction): (r: Option<seq<string>>)
    ensures r.None? <==> IndexOf(cur, id) == -1 || !(0 <= Target(IndexOf(cur, id), dir) < |cur|)
    ensures r.Some? ==>
      var i := IndexOf(cur, id);
      var j := Target(i, dir);
      && |r.value| == |cur|
      && r.value[i] == cur[j] && r.value[j] == cur[i]
      && (forall k :: 0 <= k < |cur| && k != i && k != j ==> r.value[k] == cur[k])
  {
    var i := IndexOf(cur, id);
    if i == -1 then None
    else
      var j := Target(i, dir);
      if j < 0 || j >= |cur| then None
      else Some(cur[i := cur[j]][j := cur[i]])
  }

  /** A move only swaps two positions, so the moved order is a permutation of the current one. */
  lemma MovedIsPermutation(cur: seq<string>, id: string, dir: Direction)
    requires Moved(cur, id, dir).Some?
    ensures multiset(Moved(cur, id, dir).value) == multiset(cur)
  {
    var i := IndexOf(cur, id);
    var j := Target(i, dir);
    assert Moved(cur, id, dir).value == cur[i := cur[j]][j := cur[i]];
  }

  /** The first position holding `x` is what `IndexOf` returns. */
  lemma {:induction false} IndexOfFirst(s: seq<string>, x: string, i: nat)
    requires i < |s| && s[i] == x
    requires forall j :: 0 <= j < i ==> s[j] != x
    ensures IndexOf(s, x) == i
  {
    if i > 0 {
      assert s[0] != x;
      forall j | 0 <= j < i - 1 ensures s[1..][j] != x {
        assert s[1..][j] == s[j + 1];
      }
      IndexOfFirst(s[1..], x, i - 1);
    }
  }

  /** A move of the first occurrence at `i` towards an existing neighbour is that swap. */
  lemma MovedAt(cur: seq<string>, id: string, dir: Direction, i: nat)
    requires i < |cur| && cur[i] == id
    requires forall j :: 0 <= j < i ==> cur[j] != id
    requires 0 <= Target(i, dir) < |cur|
    ensures Moved(cur, id, dir) == Some(cur[i := cur[Target(i, dir)]][Target(i, dir) := cur[i]])
  {
    IndexOfFirst(cur, id, i);
  }

  /** Swapping two positions twice gives the sequence back. */
  lemma SwapTwice(s: seq<string>, i: nat, j: nat)
    requires i < |s| && j < |s|
    ensures var once := s[i := s[j]][j := s[i]];
      once[j := once[i]][i := once[j]] == s
  {
  }

  /** Moving a persona up and then down again restores the order. */
  lemma UpThenDown(cur: seq<string>, id: string)
    requires Moved(cur, id, Up).Some?
    ensures Moved(Moved(cur, id, Up).value, id, Down) == Some(cur)
  {
    var i := IndexOf(cur, id);
    MovedAt(cur, id, Up, i);
    var once := cur[i := cur[i - 1]][i - 1 := cur[i]];
    forall j | 0 <= j < i - 1 ensures once[j] != id {
      assert once[j] == cur[j];
    }
    MovedAt(once, id, Down, i - 1);
    SwapTwice(cur, i, i - 1);
  }

  /** Moving a persona down and then up again restores the order when the neighbour is another id. */
  lemma DownThenUp(cur: seq<string>, id: string)
    requires Moved(cur, id, Down).Some?
    requires cur[IndexOf(cur, id) + 1] != id
    ensures Moved(Moved(cur, id, Down).value, id, Up) == Some(cur)
  {
    var i := IndexOf(cur, id);
    MovedAt(cur, id, Down, i);
    var once := cur[i := cur[i + 1]][i + 1 := cur[i]];
    forall j | 0 <= j < i + 1 ensures once[j] != id {
      if j < i { assert once[j] == cur[j]; } else { assert once[i] == cur[i + 1]; }
    }
    MovedAt(once, id, Up, i + 1);
    SwapTwice(cur, i, i + 1);
  }

  // ---------------------------------------------------------------------------
  // Entry store

  /** `entry.id`. */
  function IdOf(e: Json): Option<Json>
  {
    Get(e, "id")
  }

  /** The load-time shape check: a truthy record with an id, string content and date, and a comments array. */
  predicate ValidEntryRecord(j: Json)
  {
    Truthy(j) && Get(j, "id").Some? && IsString(Get(j, "content")) && IsString(Get(j, "date"))
    && IsArray(Get(j, "comments"))
  }

  /** `entries.map(e => e.id === id ? updated : e)`. */
  function ReplaceById(entries: seq<Json>, id: Option<Json>, updated: Json): (r: seq<Json>)
    ensures |r| == |entries|
    ensures forall i :: 0 <= i < |entries| ==> r[i] == if IdOf(entries[i]) == id then updated else entries[i]
  {
    if entries == [] then []
    else
      var rest := ReplaceById(entries[1..], id, updated);
      [if IdOf(entries[0]) == id then updated else entries[0]] + rest
  }

  /** Replacing an id no entry carries changes nothing. */
  lemma ReplaceAbsentId(entries: seq<Json>, id: Option<Json>, updated: Json)
    requires forall e :: e in entries ==> IdOf(e) != id
    ensures ReplaceById(entries, id, updated) == entries
  {
    var r := ReplaceById(entries, id, updated);
    assert forall i :: 0 <= i < |entries| ==> r[i] == entries[i];
  }

  /** `entries.filter(e => e.id !== id)`. */
  function RemoveById(entries: seq<Json>, id: Option<Json>): (r: seq<Json>)
    ensures |r| <= |entries|
    ensures forall e :: e in r <==> e in entries && IdOf(e) != id
  {
    if entries == [] then []
    else
      var rest := RemoveById(entries[1..], id);
      assert entries == [entries[0]] + entries[1..];
      if IdOf(entries[0]) != id then [entries[0]] + rest else rest
  }

  /** Deleting keeps the other entries in their order. */
  lemma {:induction false} RemoveByIdAppend(a: seq<Json>, b: seq<Json>, id: Option<Json>)
    ensures RemoveById(a + b, id) == RemoveById(a, id) + RemoveById(b, id)
  {
    if a == [] {
      assert a + b == b;
    } else {
      assert (a + b)[1..] == a[1..] + b;
      RemoveByIdAppend(a[1..], b, id);
    }
  }

  /** `{ personaId: r.id, text: r.comment }`. */
  function CommentOf(r: PersonaReply): Json
  {
    JObject(map["personaId" := JString(r.id), "text" := JString(r.comment)])
  }

  /** `aiResponses.map(r => ({ personaId: r.id, text: r.comment }))`. */
  function NewComments(replies: seq<PersonaReply>): (cs: seq<Json>)
    ensures |cs| == |replies|
    ensures forall i :: 0 <= i < |replies| ==>
      Get(cs[i], "personaId") == Some(JString(replies[i].id)) && Get(cs[i], "text") == Some(JString(replies[i].comment))
    ensures forall c :: c in cs ==> c.JObject?
  {
    seq(|replies|, i requires 0 <= i < |replies| => CommentOf(replies[i]))
  }

  /** The entry a successful submit prepends: id and date from the clock, the text, the comments. */
  function NewEntry(now: int, date: string, content: string, replies: seq<PersonaReply>): (e: Json)
    ensures ValidEntryRecord(e)
    ensures IdOf(e) == Some(JNumber(now))
    ensures Get(e, "date") == Some(JString(date)) && Get(e, "content") == Some(JString(content))
    ensures Get(e, "comments") == Some(JArray(NewComments(replies)))
    ensures Get(e, "analysis").None?
  {
    JObject(map[
      "id" := JNumber(now),
      "date" := JString(date),
      "content" := JString(content),
      "comments" := JArray(NewComments(replies))])
  }

  // ---------------------------------------------------------------------------
  // Loading saved state

  /** `parsed.filter(entry => <shape check>)`. */
  function FilterEntries(items: seq<Json>): (r: seq<Json>)
    ensures |r| <= |items|
    ensures forall e :: e in r <==> e in items && ValidEntryRecord(e)
  {
    if items == [] then []
    else
      var rest := FilterEntries(items[1..]);
      assert items == [items[0]] + items[1..];
      if ValidEntryRecord(items[0]) then [items[0]] + rest else rest
  }

  /** The entry filter keeps the records' order. */
  lemma {:induction false} FilterEntriesAppend(a: seq<Json>, b: seq<Json>)
    ensures FilterEntries(a + b) == FilterEntries(a) + FilterEntries(b)
  {
    if a == [] {
      assert a + b == b;
    } else {
      assert (a + b)[1..] == a[1..] + b;
      FilterEntriesAppend(a[1..], b);
    }
  }

  /** The load-time check on a custom persona record: a truthy record with string id, name, role and desc. */
  predicate ValidPersonaRecord(j: Json)
  {
    Truthy(j) && IsString(Get(j, "id")) && IsString(Get(j, "name")) && IsString(Get(j, "role"))
    && IsString(Get(j, "desc"))
  }

  /** A string property, or "" when it is missing or not a string. */
  function StringField(j: Json, key: string): (s: string)
    ensures IsString(Get(j, key)) ==> s == Get(j, key).value.s
  {
    match Get(j, key)
    case Some(JString(s)) => s
    case _ => ""
  }

  /** A checked custom persona record read as a persona. */
  function DecodePersona(j: Json): (p: Persona)
    requires ValidPersonaRecord(j)
    ensures p.id == Get(j, "id").value.s && p.name == Get(j, "name").value.s
    ensures p.role == Get(j, "role").value.s && p.desc == Get(j, "desc").value.s
  {
    Persona(StringField(j, "id"), StringField(j, "name"), StringField(j, "role"),
      StringField(j, "icon"), StringField(j, "color"), StringField(j, "desc"),
      Get(j, "isDefault") == Some(JBool(true)))
  }

  /** `parsed.filter(p => <shape check>)`, each kept record read as a persona. */
  function FilterPersonas(items: seq<Json>): (r: seq<Persona>)
    ensures |r| <= |items|
    ensures forall j :: j in items && ValidPersonaRecord(j) ==> DecodePersona(j) in r
    ensures forall p :: p in r ==> exists j :: j in items && ValidPersonaRecord(j) && p == DecodePersona(j)
  {
    if items == [] then []
    else
      var rest := FilterPersonas(items[1..]);
      assert items == [items[0]] + items[1..];
      if ValidPersonaRecord(items[0]) then [DecodePersona(items[0])] + rest else rest
  }

  /** The persona filter keeps the records' order. */
  lemma {:induction false} FilterPersonasAppend(a: seq<Json>, b: seq<Json>)
    ensures FilterPersonas(a + b) == FilterPersonas(a) + FilterPersonas(b)
  {
    if a == [] {
      assert a + b == b;
    } else {
      assert (a + b)[1..] == a[1..] + b;
      FilterPersonasAppend(a[1..], b);
    }
  }

  /** The string elements of a saved id list, in order. */
  function StringItems(items: seq<Json>): (r: seq<string>)
    ensures |r| <= |items|
    ensures forall s :: s in r <==> JString(s) in items
  {
    if items == [] then []
    else
      var rest := StringItems(items[1..]);
      assert items == [items[0]] + items[1..];
      if items[0].JString? then [items[0].s] + rest else rest
  }

  /** Reading an id list keeps the strings' order. */
  lemma {:induction false} StringItemsAppend(a: seq<Json>, b: seq<Json>)
    ensures StringItems(a + b) == StringItems(a) + StringItems(b)
  {
    if a == [] {
      assert a + b == b;
    } else {
      assert (a + b)[1..] == a[1..] + b;
      StringItemsAppend(a[1..], b);
    }
  }

  /** What reading one storage key gives: nothing saved, text `JSON.parse` rejects, or a parsed value. */
  datatype KeyRead = Absent | Corrupt | Parsed(value: Json)

  /** `localStorage.getItem(key)` followed by `if (saved) JSON.parse(saved)`. */
  function ReadKey(raw: Option<string>, parse: string -> Option<Json>): (k: KeyRead)
    ensures k.Absent? <==> raw.None? || raw == Some("")
    ensures !k.Absent? ==> (k.Corrupt? <==> parse(raw.value).None?)
    ensures k.Parsed? ==> parse(raw.value) == Some(k.value)
  {
    if raw.None? || raw.value == "" then Absent
    else
      match parse(raw.value)
      case None => Corrupt
      case Some(v) => Parsed(v)
  }

  /** The items of a key that parsed to an array (`Array.isArray(parsed)`). */
  function ArrayOf(k: KeyRead): (r: Option<seq<Json>>)
    ensures r.Some? <==> k.Parsed? && k.value.JArray?
  {
    if k.Parsed? && k.value.JArray? then Some(k.value.items) else None
  }

  /** The raw strings stored under the six keys, `None` where nothing is stored. */
  datatype StoredKeys = StoredKeys(
    entries: Option<string>,
    apiKey: Option<string>,
    customPersonas: Option<string>,
    selectedPersonas: Option<string>,
    hiddenPersonas: Option<string>,
    personaOrder: Option<string>)

  /** The persisted part of the application state. */
  datatype Snapshot = Snapshot(
    entries: seq<Json>,
    apiKey: string,
    customs: seq<Persona>,
    selected: seq<string>,
    hidden: seq<string>,
    order: seq<string>)

  /** The state before anything is loaded (the `useState` initial values). */
  const Initial: Snapshot := Snapshot([], "", [], [], [], [])

  /** The state "clear all data" resets to. */
  const Cleared: Snapshot := Snapshot([], "", [], DefaultSelection, [], [])

  /** Writes an id list read from a key that parsed to an array. */
  function IdList(k: KeyRead, current: seq<string>): seq<string>
  {
    if ArrayOf(k).Some? then StringItems(ArrayOf(k).value) else current
  }

  /** A field read from an id-list key: kept, or the strings of the array stored under that key. */
  predicate FromIdKey(now: seq<string>, before: seq<string>, k: KeyRead)
  {
    now == before || (ArrayOf(k).Some? && now == StringItems(ArrayOf(k).value))
  }

  /**
   * The load effect for the three id lists (selection, hidden, order), from
   * `s` as the first three keys left it. An absent selection becomes the
   * default one; a key that does not parse ends the block.
   */
  function LoadIdLists(s: Snapshot, st: StoredKeys, parse: string -> Option<Json>): (r: Snapshot)
    ensures r.entries == s.entries && r.apiKey == s.apiKey && r.customs == s.customs
    ensures r.selected == DefaultSelection || FromIdKey(r.selected, s.selected, ReadKey(st.selectedPersonas, parse))
    ensures FromIdKey(r.hidden, s.hidden, ReadKey(st.hiddenPersonas, parse))
    ensures FromIdKey(r.order, s.order, ReadKey(st.personaOrder, parse))
    ensures ReadKey(st.selectedPersonas, parse).Absent? ==> r.selected == DefaultSelection
    ensures ReadKey(st.selectedPersonas, parse).Corrupt? ==> r == s
    ensures ArrayOf(ReadKey(st.selectedPersonas, parse)).Some? ==>
      r.selected == StringItems(ArrayOf(ReadKey(st.selectedPersonas, parse)).value)
    ensures !ReadKey(st.selectedPersonas, parse).Corrupt? && ArrayOf(ReadKey(st.hiddenPersonas, parse)).Some? ==>
      r.hidden == StringItems(ArrayOf(ReadKey(st.hiddenPersonas, parse)).value)
    ensures !ReadKey(st.selectedPersonas, parse).Corrupt? && !ReadKey(st.hiddenPersonas, parse).Corrupt?
            && ArrayOf(ReadKey(st.personaOrder, parse)).Some? ==>
      r.order == StringItems(ArrayOf(ReadKey(st.personaOrder, parse)).value)
  {
    var sel := ReadKey(st.selectedPersonas, parse);
    if sel.Corrupt? then s
    else
      var s4 := if sel.Absent? then s.(selected := DefaultSelection) else s.(selected := IdList(sel, s.selected));
      var h := ReadKey(st.hiddenPersonas, parse);
      if h.Corrupt? then s4
      else
        var s5 := s4.(hidden := IdList(h, s4.hidden));
        var o := ReadKey(st.personaOrder, parse);
        if o.Corrupt? then s5
        else s5.(order := IdList(o, s5.order))
  }

  /**
   * The load effect, key by key, starting from `init`. A key whose text does
   * not parse throws, which ends the whole block: the keys after it are not
   * read, and the selection default is not applied either. Every field is
   * either left as it was or read from its own key.
   */
  function LoadState(init: Snapshot, st: StoredKeys, parse: string -> Option<Json>): (s: Snapshot)
    ensures ReadKey(st.entries, parse).Corrupt? ==> s == init
    ensures s.entries == init.entries
            || (ArrayOf(ReadKey(st.entries, parse)).Some?
                && s.entries == FilterEntries(ArrayOf(ReadKey(st.entries, parse)).value))
    ensures s.apiKey == init.apiKey || (st.apiKey.Some? && s.apiKey == st.apiKey.value != "")
    ensures s.customs == init.customs
            || (ArrayOf(ReadKey(st.customPersonas, parse)).Some?
                && s.customs == FilterPersonas(ArrayOf(ReadKey(st.customPersonas, parse)).value))
    ensures s.selected == DefaultSelection || FromIdKey(s.selected, init.selected, ReadKey(st.selectedPersonas, parse))
    ensures FromIdKey(s.hidden, init.hidden, ReadKey(st.hiddenPersonas, parse))
    ensures FromIdKey(s.order, init.order, ReadKey(st.personaOrder, parse))
    ensures (!ReadKey(st.entries, parse).Corrupt? && !ReadKey(st.customPersonas, parse).Corrupt?
             && ReadKey(st.selectedPersonas, parse).Absent?) ==> s.selected == DefaultSelection
    ensures !ReadKey(st.entries, parse).Corrupt? && st.apiKey.Some? && st.apiKey.value != "" ==>
      s.apiKey == st.apiKey.value
    ensures !ReadKey(st.entries, parse).Corrupt? && ArrayOf(ReadKey(st.customPersonas, parse)).Some? ==>
      s.customs == FilterPersonas(ArrayOf(ReadKey(st.customPersonas, parse)).value)
    ensures !ReadKey(st.entries, parse).Corrupt? && !ReadKey(st.customPersonas, parse).Corrupt?
            && ArrayOf(ReadKey(st.selectedPersonas, parse)).Some? ==>
      s.selected == StringItems(ArrayOf(ReadKey(st.selectedPersonas, parse)).value)
    ensures !ReadKey(st.entries, parse).Corrupt? && !ReadKey(st.customPersonas, parse).Corrupt?
            && !ReadKey(st.selectedPersonas, parse).Corrupt? && ArrayOf(ReadKey(st.hiddenPersonas, parse)).Some? ==>
      s.hidden == StringItems(ArrayOf(ReadKey(st.hiddenPersonas, parse)).value)
    ensures !ReadKey(st.entries, parse).Corrupt? && !ReadKey(st.customPersonas, parse).Corrupt?
            && !ReadKey(st.selectedPersonas, parse).Corrupt? && !ReadKey(st.hiddenPersonas, parse).Corrupt?
            && ArrayOf(ReadKey(st.personaOrder, parse)).Some? ==>
      s.order == StringItems(ArrayOf(ReadKey(st.personaOrder, parse)).value)
  {
    var e := ReadKey(st.entries, parse);
    if e.Corrupt? then init
    else
      var s1 := if ArrayOf(e).Some? then init.(entries := FilterEntries(ArrayOf(e).value)) else init;
      var s2 := if st.apiKey.Some? && st.apiKey.value != "" then s1.(apiKey := st.apiKey.value) else s1;
      var c := ReadKey(st.customPersonas, parse);
      if c.Corrupt? then s2
      else
        var s3 := if ArrayOf(c).Some? then s2.(customs := FilterPersonas(ArrayOf(c).value)) else s2;
        LoadIdLists(s3, st, parse)
  }

  /** Loading keeps exactly the saved entries that pass the shape check, in their saved order. */
  lemma LoadKeepsValidEntries(init: Snapshot, st: StoredKeys, parse: string -> Option<Json>, items: seq<Json>)
    requires ReadKey(st.entries, parse) == Parsed(JArray(items))
    ensures LoadState(init, st, parse).entries == FilterEntries(items)
  {
  }

  /** With nothing saved, the fresh state is the initial one with the default selection. */
  lemma LoadNothingSaved(parse: string -> Option<Json>)
    ensures LoadState(Initial, StoredKeys(None, None, None, None, None, None), parse) == Cleared
  {
  }

  /**
   * The selection defaults to teacher and friend exactly when no selection is
   * saved and the keys read before it parse.
   */
  lemma LoadDefaultSelection(init: Snapshot, st: StoredKeys, parse: string -> Option<Json>)
    requires !ReadKey(st.entries, parse).Corrupt? && !ReadKey(st.customPersonas, parse).Corrupt?
    requires st.selectedPersonas.None?
    ensures LoadState(init, st, parse).selected == DefaultSelection
  {
  }

  /** Unparseable saved entries abort the load: nothing is taken over, not even the default selection. */
  lemma CorruptEntriesAbortLoad(init: Snapshot, st: StoredKeys, parse: string -> Option<Json>)
    requires ReadKey(st.entries, parse).Corrupt?
    ensures LoadState(init, st, parse) == init
  {
  }

  /** Every loaded entry passes the shape check when the entries held before did. */
  lemma LoadKeepsShape(init: Snapshot, st: StoredKeys, parse: string -> Option<Json>)
    requires forall e :: e in init.entries ==> ValidEntryRecord(e)
    ensures forall e :: e in LoadState(init, st, parse).entries ==> ValidEntryRecord(e)
  {
  }

  // ---------------------------------------------------------------------------
  // The application state

  /** The longest diary text the compose box accepts. */
  const MaxEntryLength: nat := 2000

  /** How a submit ended. */
  datatype SubmitOutcome =
    | Ignored            // blank text: the button is disabled
    | NoPersonaSelected  // alert: choose someone to comment
    | KeyMissing         // the settings dialog is opened instead
    | Saved              // the new entry was prepended

  /** Every entry has the shape the load-time filter checks. */
  predicate WellShapedEntries(entries: seq<Json>)
  {
    forall e :: e in entries ==> ValidEntryRecord(e)
  }

  /**
   * The precondition ladder of `handleSubmit`, checked in this order: blank
   * text, then an empty selection, then a missing API key.
   */
  function SubmitGate(text: string, selected: seq<string>, apiKey: string): (o: SubmitOutcome)
    ensures o == Ignored <==> forall i :: 0 <= i < |text| ==> IsWhitespace(text[i])
    ensures o == NoPersonaSelected <==> Trim(text) != "" && selected == []
    ensures o == KeyMissing <==> Trim(text) != "" && selected != [] && apiKey == ""
    ensures o == Saved <==> Trim(text) != "" && selected != [] && apiKey != ""
  {
    if Trim(text) == "" then Ignored
    else if |selected| == 0 then NoPersonaSelected
    else if apiKey == "" then KeyMissing
    else Saved
  }

  lemma PrependKeepsShape(e: Json, entries: seq<Json>)
    requires ValidEntryRecord(e) && WellShapedEntries(entries)
    ensures WellShapedEntries([e] + entries)
  {
  }

  /**
   * The replies `fetchGeminiPersonas` gives for a submitted text: asked of the
   * selection over the registry in its effective order.
   */
  function SubmitReplies(gen: Generated, parse: string -> Option<Json>, text: string,
                         selected: seq<string>, customs: seq<Persona>, order: seq<string>): (r: seq<PersonaReply>)
    ensures ResponsesOf(gen, parse).Some? ==> r == Sanitise(ResponsesOf(gen, parse).value)
    ensures ResponsesOf(gen, parse).None? ==> forall o :: o in r ==>
      o.id in selected && o.id in Ids(AllPersonasRaw(customs)) && o.comment == LocalResponse(text, o.id)
    ensures ResponsesOf(gen, parse).None? ==> forall p :: p in AllPersonasRaw(customs) && p.id in selected ==>
      PersonaReply(p.id, LocalResponse(text, p.id)) in r
  {
    FallbackOverOrder(text, selected, order, AllPersonasRaw(customs));
    GetComments(gen, parse, text, selected, Some(ResolveOrder(order, AllPersonasRaw(customs))))
  }

  /** Reordering keeps the registry's id set: an id names a persona of the effective list exactly when it names one of the registry. */
  lemma ResolveOrderIds(order: seq<string>, raw: seq<Persona>)
    ensures forall id :: id in Ids(ResolveOrder(order, raw)) <==> id in Ids(raw)
  {
    forall id | id in Ids(ResolveOrder(order, raw)) ensures id in Ids(raw) {
      IdWithin(ResolveOrder(order, raw), raw, id);
    }
    forall id | id in Ids(raw) ensures id in Ids(ResolveOrder(order, raw)) {
      RegistryIdResolved(order, raw, id);
    }
  }

  /** Every id of a list whose personas all come from `raw` is an id of `raw`. */
  lemma IdWithin(r: seq<Persona>, raw: seq<Persona>, id: string)
    requires forall p :: p in r ==> p in raw
    requires id in Ids(r)
    ensures id in Ids(raw)
  {
    var k :| 0 <= k < |r| && Ids(r)[k] == id;
    IdOfMember(raw, r[k]);
  }

  lemma RegistryIdResolved(order: seq<string>, raw: seq<Persona>, id: string)
    requires id in Ids(raw)
    ensures id in Ids(ResolveOrder(order, raw))
  {
    var r := ResolveOrder(order, raw);
    var k :| 0 <= k < |raw| && Ids(raw)[k] == id;
    assert raw[k] in raw;
    var q :| q in r && q.id == raw[k].id;
    IdOfMember(r, q);
  }

  /** Reordering the registry changes neither which personas the fallback answers for nor what they say. */
  lemma FallbackOverOrder(text: string, selected: seq<string>, order: seq<string>, raw: seq<Persona>)
    ensures forall o :: o in FallbackReplies(text, selected, ResolveOrder(order, raw)) ==>
      o.id in selected && o.id in Ids(raw) && o.comment == LocalResponse(text, o.id)
    ensures forall p :: p in raw && p.id in selected ==>
      PersonaReply(p.id, LocalResponse(text, p.id)) in FallbackReplies(text, selected, ResolveOrder(order, raw))
  {
    ResolveOrderIds(order, raw);
    forall p | p in raw && p.id in selected
      ensures PersonaReply(p.id, LocalResponse(text, p.id)) in FallbackReplies(text, selected, ResolveOrder(order, raw))
    {
      var q :| q in ResolveOrder(order, raw) && q.id == p.id;
    }
  }

  class DiaryApp {
    var entries: seq<Json>
    var inputText: string
    var selected: seq<string>
    var apiKey: string
    var customs: seq<Persona>
    var hidden: seq<string>
    var order: seq<string>
    var showSettings: bool

    /** The compose text stays within its cap and every entry has the stored shape. */
    ghost predicate Valid()
      reads this`inputText, this`entries
    {
      |inputText| <= MaxEntryLength && WellShapedEntries(entries)
    }

    /** The persisted fields. */
    function State(): Snapshot
      reads this
    {
      Snapshot(entries, apiKey, customs, selected, hidden, order)
    }

    /** `allPersonas`: the registry in its effective order. */
    function AllPersonas(): (r: seq<Persona>)
      reads this`customs, this`order
      ensures order == [] ==> r == AllPersonasRaw(customs)
      ensures forall p :: p in r ==> p in AllPersonasRaw(customs)
      ensures forall p :: p in AllPersonasRaw(customs) ==> exists q :: q in r && q.id == p.id
    {
      ResolveOrder(order, AllPersonasRaw(customs))
    }

    /** `visiblePersonas`: the effective list without the hidden ids. */
    function VisiblePersonas(): (r: seq<Persona>)
      reads this`customs, this`order, this`hidden
      ensures forall p :: p in r <==> p in AllPersonas() && p.id !in hidden
    {
      Visible(AllPersonas(), hidden)
    }

    constructor ()
      ensures Valid()
      ensures State() == Initial && inputText == "" && !showSettings
    {
      entries, inputText, selected, apiKey := [], "", [], "";
      customs, hidden, order, showSettings := [], [], [], false;
    }

    /** The initial load effect over the saved keys. */
    method Load(stored: StoredKeys, parse: string -> Option<Json>)
      requires Valid()
      modifies this`entries, this`apiKey, this`customs, this`selected, this`hidden, this`order
      ensures Valid()
      ensures State() == LoadState(old(State()), stored, parse)
    {
      LoadKeepsShape(State(), stored, parse);
      var s := LoadState(State(), stored, parse);
      entries, apiKey, customs := s.entries, s.apiKey, s.customs;
      selected, hidden, order := s.selected, s.hidden, s.order;
    }

    /** `handleSaveKey`: the key is kept and the settings dialog closed. */
    method SaveKey(key: string)
      modifies this`apiKey, this`showSettings
      ensures apiKey == key && !showSettings
    {
      apiKey, showSettings := key, false;
    }

    /** The compose box's change handler keeps at most 2000 characters. */
    method SetInputText(value: string)
      requires Valid()
      modifies this`inputText
      ensures Valid()
      ensures inputText == Take(value, MaxEntryLength)
    {
      inputText := Take(value, MaxEntryLength);
    }

    /** `handleAddCustomPersona`: the new persona goes to the end of the customs. */
    method AddCustomPersona(p: Persona)
      modifies this`customs
      ensures customs == old(customs) + [p]
    {
      customs := customs + [p];
    }

    /**
     * `handleDeleteCustomPersona`: the id leaves the customs, the selection and
     * the order; entries, and the comments that name the id, are untouched.
     */
    method DeleteCustomPersona(id: string)
      modifies this`customs, this`selected, this`order
      ensures customs == DropPersona(old(customs), id)
      ensures selected == DropId(old(selected), id)
      ensures order == DropId(old(order), id)
      ensures id !in Ids(DefaultPersonas) ==> forall p :: p in AllPersonas() ==> p.id != id
    {
      customs := DropPersona(customs, id);
      selected := DropId(selected, id);
      order := DropId(order, id);
      assert forall p :: p in AllPersonasRaw(customs) && p.id == id ==> p in DefaultPersonas;
    }

    /**
     * `handleTogglePersonaVisibility`: the id's membership in the hidden ids
     * flips; an id that becomes hidden also leaves the selection.
     */
    method TogglePersonaVisibility(id: string)
      modifies this`hidden, this`selected
      ensures hidden == Toggled(old(hidden), id)
      ensures id !in old(hidden) ==> selected == DropId(old(selected), id)
      ensures id in old(hidden) ==> selected == old(selected)
      ensures id in hidden <==> id !in old(hidden)
      ensures id in hidden ==> id !in selected && forall p :: p in VisiblePersonas() ==> p.id != id
    {
      var wasHidden := id in hidden;
      hidden := Toggled(hidden, id);
      if !wasHidden {
        selected := DropId(selected, id);
      }
    }

    /** `togglePersona`: the id joins or leaves the selection. */
    method TogglePersona(id: string)
      modifies this`selected
      ensures selected == Toggled(old(selected), id)
    {
      selected := Toggled(selected, id);
    }

    /**
     * `handleMovePersona`: copy the current order and swap the id with its
     * neighbour in place; no change when the id is absent or at the edge.
     */
    method MovePersona(id: string, dir: Direction)
      modifies this`order
      ensures var cur := CurrentOrder(old(order), AllPersonasRaw(customs));
        order == match Moved(cur, id, dir) case Some(o) => o case None => old(order)
    {
      var cur := CurrentOrder(order, AllPersonasRaw(customs));
      var index := IndexOf(cur, id);
      if index == -1 {
        return;
      }
      var newIndex := if dir == Up then index - 1 else index + 1;
      if newIndex < 0 || newIndex >= |cur| {
        return;
      }
      var newOrder := new string[|cur|](k requires 0 <= k < |cur| => cur[k]);
      assert newOrder[..] == cur;
      newOrder[index], newOrder[newIndex] := newOrder[newIndex], newOrder[index];
      assert newOrder[..] == cur[index := cur[newIndex]][newIndex := cur[index]];
      order := newOrder[..];
    }

    /** `handleReorderPersonas`: the order is replaced wholesale, without validation. */
    method ReorderPersonas(ids: seq<string>)
      modifies this`order
      ensures order == ids
    {
      order := ids;
    }

    /** `handleUpdateEntry`: every entry with that id is replaced. */
    method UpdateEntry(id: Option<Json>, updated: Json)
      requires Valid()
      modifies this`entries
      ensures entries == ReplaceById(old(entries), id, updated)
      ensures ValidEntryRecord(updated) ==> Valid()
    {
      entries := ReplaceById(entries, id, updated);
    }

    /** `handleDelete`: with the user's confirmation, the entries with that id are removed. */
    method Delete(id: Option<Json>, confirmed: bool)
      requires Valid()
      modifies this`entries
      ensures Valid()
      ensures entries == if confirmed then RemoveById(old(entries), id) else old(entries)
    {
      if confirmed {
        entries := RemoveById(entries, id);
      }
    }

    /**
     * `handleSubmit`, with the clock, the date text and the service's reply as
     * inputs. Blank text, an empty selection and a missing key each stop it;
     * otherwise exactly one entry is prepended and the compose box cleared.
     */
    method Submit(now: int, date: string, gen: Generated, parse: string -> Option<Json>)
      returns (outcome: SubmitOutcome)
      requires Valid()
      modifies this`entries, this`inputText, this`showSettings
      ensures Valid()
      ensures outcome == SubmitGate(old(inputText), old(selected), old(apiKey))
      ensures outcome != Saved ==> entries == old(entries) && inputText == old(inputText)
      ensures showSettings == (outcome == KeyMissing || old(showSettings))
      ensures outcome == Saved ==>
        && entries == [NewEntry(now, date, old(inputText), SubmitReplies(gen, parse, old(inputText), old(selected), old(customs), old(order)))] + old(entries)
        && inputText == ""
    {
      outcome := SubmitGate(inputText, selected, apiKey);
      if outcome == KeyMissing {
        showSettings := true;
      } else if outcome == Saved {
        var replies := SubmitReplies(gen, parse, inputText, selected, customs, order);
        Record(now, date, replies);
      }
    }

    /**
     * The saving half of `handleSubmit`, once the replies are back: prepend the
     * new entry and clear the compose box.
     */
    method Record(now: int, date: string, replies: seq<PersonaReply>)
      requires Valid()
      modifies this`entries, this`inputText
      ensures Valid()
      ensures entries == [NewEntry(now, date, old(inputText), replies)] + old(entries)
      ensures inputText == ""
    {
      var entry := NewEntry(now, date, inputText, replies);
      PrependKeepsShape(entry, entries);
      entries := [entry] + entries;
      inputText := "";
    }

    /** `handleClearAllData`: every collection back to its default, the dialog closed. */
    method ClearAllData()
      requires Valid()
      modifies this
      ensures Valid()
      ensures State() == Cleared && inputText == old(inputText) && !showSettings
    {
      entries, apiKey, customs := [], "", [];
      selected, hidden, order := DefaultSelection, [], [];
      showSettings := false;
    }
  }
}
