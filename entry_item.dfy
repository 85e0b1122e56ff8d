/**
 * One diary entry on screen (src/components/EntryItem.jsx): attaching and
 * removing the analysis report, and resolving each comment to the persona
 * that wrote it.
 */
module EntryItem {
  import opened Common
  import opened JsonValue
  import opened Personas
  import opened Api
  import opened App

  // ---------------------------------------------------------------------------
  // Analysis attach and removal

  const AnalysisKey: string := "analysis"

  /** `{ ...entry, analysis: result }`: the entry with its report set, every other property kept. */
  function WithAnalysis(entry: Json, a: Analysis): (r: Json)
    requires entry.JObject?
    ensures r.JObject? && r.fields.Keys == entry.fields.Keys + {AnalysisKey}
    ensures Get(r, AnalysisKey) == Some(AnalysisToJson(a))
    ensures forall k :: k in entry.fields && k != AnalysisKey ==> r.fields[k] == entry.fields[k]
  {
    JObject(entry.fields[AnalysisKey := AnalysisToJson(a)])
  }

  /** `const { analysis, ...rest } = entry`: the entry without its report, every other property kept. */
  function WithoutAnalysis(entry: Json): (r: Json)
    requires entry.JObject?
    ensures r.JObject? && r.fields.Keys == entry.fields.Keys - {AnalysisKey}
    ensures Get(r, AnalysisKey).None?
    ensures forall k :: k in r.fields ==> r.fields[k] == entry.fields[k]
  {
    JObject(entry.fields - {AnalysisKey})
  }

  /** Removing the report twice is removing it once. */
  lemma ClearIdempotent(entry: Json)
    requires entry.JObject?
    ensures WithoutAnalysis(WithoutAnalysis(entry)) == WithoutAnalysis(entry)
  {
    assert WithoutAnalysis(WithoutAnalysis(entry)).fields == WithoutAnalysis(entry).fields;
  }

  /** Removing a report just attached gives the entry as it was without one. */
  lemma ClearUndoesAttach(entry: Json, a: Analysis)
    requires entry.JObject?
    ensures WithoutAnalysis(WithAnalysis(entry, a)) == WithoutAnalysis(entry)
  {
    assert WithoutAnalysis(WithAnalysis(entry, a)).fields == WithoutAnalysis(entry).fields;
  }

  /**
   * Attaching or removing the report keeps the id and the stored shape, so the
   * update replaces the same entry and the store keeps passing the load filter.
   */
  lemma EditsKeepShape(entry: Json, a: Analysis)
    requires ValidEntryRecord(entry)
    ensures ValidEntryRecord(WithAnalysis(entry, a)) && IdOf(WithAnalysis(entry, a)) == IdOf(entry)
    ensures ValidEntryRecord(WithoutAnalysis(entry)) && IdOf(WithoutAnalysis(entry)) == IdOf(entry)
  {
    var w := WithAnalysis(entry, a);
    var o := WithoutAnalysis(entry);
    assert "id" != AnalysisKey && "content" != AnalysisKey && "date" != AnalysisKey && "comments" != AnalysisKey;
    assert Get(w, "id") == Get(entry, "id") && Get(o, "id") == Get(entry, "id");
    assert Get(w, "content") == Get(entry, "content") && Get(o, "content") == Get(entry, "content");
    assert Get(w, "date") == Get(entry, "date") && Get(o, "date") == Get(entry, "date");
    assert Get(w, "comments") == Get(entry, "comments") && Get(o, "comments") == Get(entry, "comments");
  }

  // ---------------------------------------------------------------------------
  // Comment resolution

  /** A rendered comment card: the persona, the comment's `text` property and its position. */
  datatype Card = Card(persona: Persona, text: Option<Json>, index: nat)

  /** `personas.find(p => p.id === c.personaId)`: only a string `personaId` can match a persona id. */
  function ResolveComment(c: Json, personas: seq<Persona>): (r: Option<Persona>)
    ensures r.Some? <==> exists s :: Get(c, "personaId") == Some(JString(s)) && s in Ids(personas)
    ensures r.Some? ==> r.value in personas && Get(c, "personaId") == Some(JString(r.value.id))
  {
    match Get(c, "personaId")
    case Some(JString(s)) => FindById(personas, s)
    case _ => None
  }

  /**
   * `entry.comments.map(...)` from position `i` on: a card for each comment
   * whose persona resolves, nothing for an orphan. Reading `personaId` of a
   * `null` element throws, which `None` stands for.
   */
  function RenderFrom(comments: seq<Json>, personas: seq<Persona>, i: nat): (r: Option<seq<Card>>)
    requires i <= |comments|
    ensures r.None? <==> exists k :: i <= k < |comments| && comments[k] == JNull
    ensures r.Some? ==> forall c :: c in r.value ==> i <= c.index < |comments|
    decreases |comments| - i
  {
    if i == |comments| then Some([])
    else if comments[i] == JNull then None
    else
      match RenderFrom(comments, personas, i + 1)
      case None => None
      case Some(rest) =>
        match ResolveComment(comments[i], personas)
        case Some(p) => Some([Card(p, Get(comments[i], "text"), i)] + rest)
        case None => Some(rest)
  }

  /** Each card belongs to a comment whose persona resolves to the card's persona, and carries that comment's text. */
  lemma {:induction false} RenderSound(comments: seq<Json>, personas: seq<Persona>, i: nat, c: Card)
    requires i <= |comments| && RenderFrom(comments, personas, i).Some?
    requires c in RenderFrom(comments, personas, i).value
    ensures ResolveComment(comments[c.index], personas) == Some(c.persona)
    ensures c.text == Get(comments[c.index], "text")
    decreases |comments| - i
  {
    var rest := RenderFrom(comments, personas, i + 1).value;
    if c !in rest {
      assert c.index == i;
    } else {
      RenderSound(comments, personas, i + 1, c);
    }
  }

  /** Every comment from position `i` on whose persona resolves gets a card. */
  lemma {:induction false} RenderComplete(comments: seq<Json>, personas: seq<Persona>, i: nat, k: nat)
    requires i <= k < |comments| && ResolveComment(comments[k], personas).Some?
    requires RenderFrom(comments, personas, i).Some?
    ensures exists c :: c in RenderFrom(comments, personas, i).value && c.index == k
    decreases |comments| - i
  {
    var rest := RenderFrom(comments, personas, i + 1).value;
    var all := RenderFrom(comments, personas, i).value;
    match ResolveComment(comments[i], personas)
    case Some(p) =>
      var card := Card(p, Get(comments[i], "text"), i);
      assert all == [card] + rest;
      if k == i {
        assert all[0] == card;
      } else {
        RenderComplete(comments, personas, i + 1, k);
        var c :| c in rest && c.index == k;
        assert c in all;
      }
    case None =>
      assert all == rest;
      RenderComplete(comments, personas, i + 1, k);
  }

  /** The cards' positions strictly increase. */
  predicate IncreasingIndices(cards: seq<Card>)
  {
    forall a, b :: 0 <= a < b < |cards| ==> cards[a].index < cards[b].index
  }

  lemma ConsIncreasing(card: Card, rest: seq<Card>)
    requires IncreasingIndices(rest)
    requires forall c :: c in rest ==> card.index < c.index
    ensures IncreasingIndices([card] + rest)
  {
    var cards := [card] + rest;
    forall a, b | 0 <= a < b < |cards| ensures cards[a].index < cards[b].index {
      assert cards[b] == rest[b - 1];
      if a > 0 {
        assert cards[a] == rest[a - 1];
      }
    }
  }

  /** The cards keep the comments' order. */
  lemma {:induction false} RenderOrdered(comments: seq<Json>, personas: seq<Persona>, i: nat)
    requires i <= |comments| && RenderFrom(comments, personas, i).Some?
    ensures IncreasingIndices(RenderFrom(comments, personas, i).value)
    decreases |comments| - i
  {
    if i < |comments| {
      RenderOrdered(comments, personas, i + 1);
      var rest := RenderFrom(comments, personas, i + 1).value;
      match ResolveComment(comments[i], personas)
      case Some(p) =>
        ConsIncreasing(Card(p, Get(comments[i], "text"), i), rest);
      case None =>
    }
  }

  /** The cards rendered for an entry's comments. */
  function RenderComments(comments: seq<Json>, personas: seq<Persona>): Option<seq<Card>>
  {
    RenderFrom(comments, personas, 0)
  }

  /**
   * Orphaned comments never fail: when no element is `null`, rendering
   * succeeds, and a comment whose persona is gone yields no card.
   */
  lemma OrphansRenderNothing(comments: seq<Json>, personas: seq<Persona>, k: nat)
    requires JNull !in comments
    requires k < |comments| && ResolveComment(comments[k], personas).None?
    ensures RenderComments(comments, personas).Some?
    ensures forall c :: c in RenderComments(comments, personas).value ==> c.index != k
  {
    forall c | c in RenderComments(comments, personas).value ensures c.index != k {
      RenderSound(comments, personas, 0, c);
    }
  }

  /** A comment naming a deleted custom persona is an orphan: no card, and the comment itself stays stored. */
  lemma DeletedPersonaOrphansComment(comments: seq<Json>, customs: seq<Persona>, order: seq<string>, id: string, k: nat)
    requires JNull !in comments
    requires k < |comments| && Get(comments[k], "personaId") == Some(JString(id))
    requires id !in Ids(DefaultPersonas)
    ensures var shown := ResolveOrder(DropId(order, id), AllPersonasRaw(DropPersona(customs, id)));
      forall c :: c in RenderComments(comments, shown).value ==> c.index != k
  {
    DeletedIdNotShown(customs, order, id);
    AbsentIdRendersNothing(comments, ResolveOrder(DropId(order, id), AllPersonasRaw(DropPersona(customs, id))), id, k);
  }

  /** A comment naming an id no listed persona carries gets no card. */
  lemma AbsentIdRendersNothing(comments: seq<Json>, personas: seq<Persona>, id: string, k: nat)
    requires JNull !in comments
    requires k < |comments| && Get(comments[k], "personaId") == Some(JString(id))
    requires id !in Ids(personas)
    ensures forall c :: c in RenderComments(comments, personas).value ==> c.index != k
  {
    assert ResolveComment(comments[k], personas).None?;
    OrphansRenderNothing(comments, personas, k);
  }

  /** After a custom persona is deleted, its id names nobody in the effective persona list. */
  lemma DeletedIdNotShown(customs: seq<Persona>, order: seq<string>, id: string)
    requires id !in Ids(DefaultPersonas)
    ensures id !in Ids(ResolveOrder(DropId(order, id), AllPersonasRaw(DropPersona(customs, id))))
  {
    var remaining := DropPersona(customs, id);
    var raw := AllPersonasRaw(remaining);
    var shown := ResolveOrder(DropId(order, id), raw);
    forall p | p in shown ensures p.id != id {
      assert p in DefaultPersonas + remaining;
      if p in DefaultPersonas {
        IdOfMember(DefaultPersonas, p);
      }
    }
    AbsentId(shown, id);
  }

  lemma AbsentId(ps: seq<Persona>, id: string)
    requires forall p :: p in ps ==> p.id != id
    ensures id !in Ids(ps)
  {
    forall j | 0 <= j < |ps| ensures Ids(ps)[j] != id {
      assert ps[j] in ps;
    }
  }

  /** A `null` comment makes the whole list fail to render. */
  lemma NullCommentFails(personas: seq<Persona>)
    ensures RenderComments([JNull], personas).None?
  {
    assert [JNull][0] == JNull;
  }

  // ---------------------------------------------------------------------------
  // The component

  /** What `onUpdate(entry.id, updated)` hands to the entry store. */
  datatype EntryUpdate = EntryUpdate(id: Option<Json>, updated: Json)

  class EntryCard {
    const entry: Json
    const apiKey: string
    const personas: seq<Persona>
    var analyzing: bool

    /** The props of one rendered entry; without a persona list the built-ins are used. */
    constructor (entry: Json, apiKey: string, allPersonas: Option<seq<Persona>>)
      requires ValidEntryRecord(entry)
      ensures this.entry == entry && this.apiKey == apiKey
      ensures personas == OrDefault(allPersonas)
      ensures !analyzing
    {
      this.entry := entry;
      this.apiKey := apiKey;
      this.personas := OrDefault(allPersonas);
      this.analyzing := false;
    }

    ghost predicate Valid()
    {
      ValidEntryRecord(entry)
    }

    /**
     * `handleAnalysis`, with the service's reply as input: without an API key
     * nothing happens; otherwise the busy flag is raised around the request
     * and a report, when one comes back, is attached to the same entry.
     */
    method HandleAnalysis(gen: Generated, parse: string -> Option<Json>) returns (update: Option<EntryUpdate>)
      requires Valid()
      modifies this`analyzing
      ensures apiKey == "" ==> update.None? && analyzing == old(analyzing)
      ensures apiKey != "" ==> !analyzing
      ensures update.Some? <==> apiKey != "" && FetchAnalysis(gen, parse).Some?
      ensures update.Some? ==>
        update.value == EntryUpdate(IdOf(entry), WithAnalysis(entry, FetchAnalysis(gen, parse).value))
    {
      if apiKey == "" {
        return None;
      }
      analyzing := true;
      var result := FetchAnalysis(gen, parse);
      if result.Some? {
        update := Some(EntryUpdate(IdOf(entry), WithAnalysis(entry, result.value)));
      } else {
        update := None;
      }
      analyzing := false;
    }

    /** `clearAnalysis`: the entry without its report, under the same id. */
    method ClearAnalysis() returns (update: EntryUpdate)
      requires Valid()
      ensures update.id == IdOf(entry) && update.updated == WithoutAnalysis(entry)
      ensures ValidEntryRecord(update.updated) && Get(update.updated, AnalysisKey).None?
    {
      EditsKeepShape(entry, Analysis(50, UnknownWeather, "", "", ""));
      update := EntryUpdate(IdOf(entry), WithoutAnalysis(entry));
    }

    /** The comment cards of the entry, resolved against the persona list. */
    function Cards(): (r: Option<seq<Card>>)
      requires Valid()
      ensures JNull !in Get(entry, "comments").value.items ==> r.Some?
    {
      RenderComments(Get(entry, "comments").value.items, personas)
    }
  }
}
