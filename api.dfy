/**
 * The generative-service client (src/services/api.js) with the HTTP exchange
 * abstracted away: the offline fallback responder, the validation and
 * sanitising of the commentary reply with its all-or-nothing fallback, the
 * coercion of the analysis report, and the choice of model endpoint.
 */
module Api {
  import opened Common
  import opened JsonValue
  import opened Personas

  // ---------------------------------------------------------------------------
  // Fallback responder

  /** The mood bucket a diary text falls in; `Neutral` is the default when no keyword matches. */
  datatype Bucket = Negative | Positive | Effort | Food | Love | Neutral

  /**
   * Position of a bucket in the declared order of the keyword table (negative,
   * positive, effort, food, love: the order `Object.keys` yields); `Neutral`
   * comes after all of them.
   */
  function Rank(b: Bucket): nat
  {
    match b
    case Negative => 0
    case Positive => 1
    case Effort => 2
    case Food => 3
    case Love => 4
    case Neutral => 5
  }

  function Keywords(b: Bucket): seq<string>
  {
    match b
    case Negative => ["疲れた", "つらい", "死にたい", "失敗", "嫌", "悲しい", "怒", "最悪", "泣", "不安"]
    case Positive => ["楽しい", "嬉しい", "最高", "成功", "好き", "愛", "良かっ", "笑", "ハッピー"]
    case Effort => ["頑張", "勉強", "仕事", "練習", "努力", "目標", "挑戦"]
    case Food => ["食べ", "美味しい", "お腹", "ラーメン", "肉", "酒", "ごはん"]
    case Love => ["恋", "愛", "デート", "彼氏", "彼女", "結婚", "推し"]
    case Neutral => []
  }

  /** `keywords[b].some(k => t.includes(k))`. */
  predicate Mentions(t: string, b: Bucket)
  {
    exists i :: 0 <= i < |Keywords(b)| && Contains(t, Keywords(b)[i])
  }

  /**
   * The bucket of a diary text: `Object.keys(keywords).find(...) || 'neutral'`,
   * that is, the first bucket in declared order with a keyword in the
   * lower-cased text (first match, not best match), else `Neutral`.
   */
  function Classify(text: string): (r: Bucket)
    ensures r == Neutral <==> forall b :: !Mentions(ToLower(text), b)
    ensures r != Neutral ==> Mentions(ToLower(text), r)
    ensures forall b :: Rank(b) < Rank(r) ==> !Mentions(ToLower(text), b)
  {
    var t := ToLower(text);
    if Mentions(t, Negative) then Negative
    else if Mentions(t, Positive) then Positive
    else if Mentions(t, Effort) then Effort
    else if Mentions(t, Food) then Food
    else if Mentions(t, Love) then Love
    else Neutral
  }

  /** The canned replies, per persona id and bucket; no row has `Food` or `Love` entries. */
  const ResponseTable: map<string, map<Bucket, string>> := map[
    "teacher" := map[
      Negative := "辛い時は無理せず休むのも勇気ですよ。", Positive := "素晴らしい！その意気です。",
      Effort := "努力は必ず報われますよ。", Neutral := "なるほど、記録しておくことは大切ですね。"],
    "friend" := map[
      Negative := "えー大丈夫？話聞くよ！", Positive := "最高じゃん！",
      Effort := "えらすぎ！", Neutral := "そっかそっか〜。"],
    "lover" := map[
      Negative := "大丈夫？飛んでいこうか？", Positive := "君が笑顔なら僕も幸せだ。",
      Effort := "頑張り屋な君が好きだよ。", Neutral := "君のことを知れて嬉しいよ。"],
    "aunt" := map[
      Negative := "ちゃんとご飯食べて寝なさいよ！", Positive := "あらよかったじゃない！",
      Effort := "根詰めすぎちゃだめよ。", Neutral := "たまには顔見せなさいね。"],
    "celeb" := map[
      Negative := "Rainy days make flowers grow.", Positive := "Excellent!",
      Effort := "Dream big.", Neutral := "Keep it cool."],
    "isekai" := map[
      Negative := "心の闇が広がっているな...", Positive := "光の加護があらんことを！",
      Effort := "修練か、悪くない。", Neutral := "異界の日常とは興味深い。"]
  ]

  /** The reply of a persona the table does not know. */
  const Placeholder: string := "...（返答なし）"

  /** Every row of the table has a non-empty neutral reply and no empty reply at all. */
  predicate TableWellFormed()
  {
    forall id :: id in ResponseTable ==>
      Neutral in ResponseTable[id] && Food !in ResponseTable[id] && Love !in ResponseTable[id]
      && forall b :: b in ResponseTable[id] ==> ResponseTable[id][b] != ""
  }

  lemma TableIsWellFormed()
    ensures TableWellFormed()
  {
  }

  /**
   * `generateLocalResponse(text, personaId)`: `table[persona][bucket]` when present
   * (and non-empty), else `table[persona].neutral`, else the placeholder.
   */
  function LocalResponse(text: string, personaId: string): (r: string)
    ensures personaId !in ResponseTable ==> r == Placeholder
    ensures personaId in ResponseTable ==>
      var row := ResponseTable[personaId];
      r == if Classify(text) in row then row[Classify(text)] else row[Neutral]
  {
    TableIsWellFormed();
    var b := Classify(text);
    if personaId in ResponseTable && b in ResponseTable[personaId] && ResponseTable[personaId][b] != "" then
      ResponseTable[personaId][b]
    else if personaId in ResponseTable && Neutral in ResponseTable[personaId] && ResponseTable[personaId][Neutral] != "" then
      ResponseTable[personaId][Neutral]
    else
      Placeholder
  }

  /** `toLowerCase` leaves an occurrence of a word without ASCII capitals in place. */
  lemma LowerKeepsOccurrence(t: string, k: string, i: int)
    requires OccursAt(t, k, i)
    requires forall j :: 0 <= j < |k| ==> LowerChar(k[j]) == k[j]
    ensures OccursAt(ToLower(t), k, i)
  {
    var u := ToLower(t);
    assert forall j :: 0 <= j < |k| ==> u[i + j] == k[j] by {
      forall j | 0 <= j < |k| ensures u[i + j] == k[j] {
        assert t[i + j] == t[i..i + |k|][j];
      }
    }
    assert u[i..i + |k|] == k;
  }

  /**
   * First match wins: a text holding any negative keyword is classified as
   * negative, whatever else it mentions.
   */
  lemma NegativeWins(text: string, i: nat)
    requires i < |Keywords(Negative)| && Contains(text, Keywords(Negative)[i])
    ensures Classify(text) == Negative
  {
    var k := Keywords(Negative)[i];
    var at :| OccursAt(text, k, at);
    LowerKeepsOccurrence(text, k, at);
    assert Contains(ToLower(text), k);
    assert Mentions(ToLower(text), Negative);
  }

  /** The two food and love buckets never select a row entry: those texts get the neutral reply. */
  lemma FoodAndLoveAnswerNeutral(text: string, personaId: string)
    requires Classify(text) == Food || Classify(text) == Love
    requires personaId in ResponseTable
    ensures LocalResponse(text, personaId) == ResponseTable[personaId][Neutral]
  {
  }

  /** A built-in persona always gets one of its own canned replies, never the placeholder. */
  lemma FallbackCoversBuiltins(text: string, p: Persona)
    requires p in DefaultPersonas
    ensures p.id in ResponseTable
    ensures LocalResponse(text, p.id) in ResponseTable[p.id].Values
    ensures LocalResponse(text, p.id) != Placeholder
  {
    RosterShape();
    IdOfMember(DefaultPersonas, p);
    BuiltinsHaveRows();
    RowAnswers(text, p.id);
  }

  /** A persona with a row is answered from that row, never with the placeholder. */
  lemma RowAnswers(text: string, id: string)
    requires id in ResponseTable
    ensures LocalResponse(text, id) in ResponseTable[id].Values
    ensures LocalResponse(text, id) != Placeholder
  {
    TableIsWellFormed();
    assert Placeholder !in ResponseTable[id].Values;
  }

  /** Every built-in id has a row of canned replies. */
  lemma BuiltinsHaveRows()
    ensures forall id :: id in BuiltinIds ==> id in ResponseTable
  {
  }

  /** "今日は失敗したけど頑張った" holds a negative and an effort keyword: the teacher answers the negative line. */
  lemma FailedButTriedScenario()
    ensures Classify("今日は失敗したけど頑張った") == Negative
    ensures LocalResponse("今日は失敗したけど頑張った", "teacher") == "辛い時は無理せず休むのも勇気ですよ。"
  {
    var text := "今日は失敗したけど頑張った";
    assert OccursAt(text, "失敗", 3);
    assert Keywords(Negative)[3] == "失敗";
    NegativeWins(text, 3);
  }

  // ---------------------------------------------------------------------------
  // Commentary client

  /**
   * What the HTTP exchange delivered: nothing (the request or the body's JSON
   * decoding failed), or a response with its `ok` status and the string at
   * `candidates[0].content.parts[0].text`, if any.
   */
  datatype Generated = TransportFailed | Received(ok: bool, text: Option<string>)

  /** One persona's comment, as handed to the entry store. */
  datatype PersonaReply = PersonaReply(id: string, comment: string)

  const MaxReplyIdLength: nat := 50
  const MaxCommentLength: nat := 500

  /** `r && typeof r.id === 'string' && typeof r.comment === 'string'`. */
  predicate WellShaped(r: Json)
  {
    Truthy(r) && IsString(Get(r, "id")) && IsString(Get(r, "comment"))
  }

  /** A well-shaped element with its `id` cut to 50 and its `comment` to 500 characters. */
  function Clip(r: Json): (o: PersonaReply)
    requires WellShaped(r)
    ensures |o.id| <= MaxReplyIdLength && |o.comment| <= MaxCommentLength
    ensures o.id <= Get(r, "id").value.s && o.comment <= Get(r, "comment").value.s
  {
    PersonaReply(Take(Get(r, "id").value.s, MaxReplyIdLength), Take(Get(r, "comment").value.s, MaxCommentLength))
  }

  /**
   * The sanitised success path: the well-shaped elements, clipped, in input
   * order; everything else is dropped, not substituted.
   */
  function Sanitise(items: seq<Json>): (out: seq<PersonaReply>)
    ensures |out| <= |items|
    ensures forall o :: o in out ==> |o.id| <= MaxReplyIdLength && |o.comment| <= MaxCommentLength
    ensures forall o :: o in out ==> exists r :: r in items && WellShaped(r) && o == Clip(r)
    ensures forall r :: r in items && WellShaped(r) ==> Clip(r) in out
    ensures (forall r :: r in items ==> WellShaped(r)) ==> |out| == |items|
  {
    if items == [] then []
    else
      var rest := Sanitise(items[1..]);
      assert forall r :: r in items[1..] ==> r in items;
      if WellShaped(items[0]) then [Clip(items[0])] + rest else rest
  }

  /** Sanitising keeps the input order: it distributes over concatenation. */
  lemma {:induction false} SanitiseAppend(a: seq<Json>, b: seq<Json>)
    ensures Sanitise(a + b) == Sanitise(a) + Sanitise(b)
  {
    if a != [] {
      assert (a + b)[0] == a[0];
      assert (a + b)[1..] == a[1..] + b;
      SanitiseAppend(a[1..], b);
      if WellShaped(a[0]) {
        assert Sanitise(a + b) == [Clip(a[0])] + Sanitise(a[1..] + b);
        assert Sanitise(a) == [Clip(a[0])] + Sanitise(a[1..]);
      } else {
        assert Sanitise(a + b) == Sanitise(a[1..] + b);
        assert Sanitise(a) == Sanitise(a[1..]);
      }
    } else {
      assert a + b == b;
    }
  }

  /** `personaList.filter(p => selectedIds.includes(p.id))`: the selected personas, in catalog order. */
  function SelectedPersonas(catalog: seq<Persona>, selectedIds: seq<string>): (r: seq<Persona>)
    ensures |r| <= |catalog|
    ensures forall p :: p in r <==> p in catalog && p.id in selectedIds
  {
    if catalog == [] then []
    else
      var rest := SelectedPersonas(catalog[1..], selectedIds);
      assert catalog == [catalog[0]] + catalog[1..];
      if catalog[0].id in selectedIds then [catalog[0]] + rest else rest
  }

  /** The selection filter keeps catalog order: it distributes over concatenation. */
  lemma {:induction false} SelectedPersonasAppend(a: seq<Persona>, b: seq<Persona>, selectedIds: seq<string>)
    ensures SelectedPersonas(a + b, selectedIds) == SelectedPersonas(a, selectedIds) + SelectedPersonas(b, selectedIds)
  {
    if a == [] {
      assert a + b == b;
    } else {
      assert (a + b)[0] == a[0];
      assert (a + b)[1..] == a[1..] + b;
      SelectedPersonasAppend(a[1..], b, selectedIds);
    }
  }

  /** Filtering a catalog with distinct ids keeps the ids distinct. */
  lemma {:induction false} SelectedDistinct(catalog: seq<Persona>, selectedIds: seq<string>)
    requires DistinctIds(catalog)
    ensures DistinctIds(SelectedPersonas(catalog, selectedIds))
  {
    if catalog != [] {
      var tail := catalog[1..];
      DistinctTail(catalog);
      SelectedDistinct(tail, selectedIds);
      var rest := SelectedPersonas(tail, selectedIds);
      if catalog[0].id in selectedIds {
        forall p | p in rest ensures p.id != catalog[0].id {
          IdOfMember(tail, p);
        }
        ConsDistinct(catalog[0], rest);
      }
    }
  }

  /** `selectedPersonas.map(p => ({id: p.id, comment: generateLocalResponse(text, p.id)}))`. */
  function LocalReplies(text: string, ps: seq<Persona>): seq<PersonaReply>
  {
    seq(|ps|, i requires 0 <= i < |ps| => PersonaReply(ps[i].id, LocalResponse(text, ps[i].id)))
  }

  /**
   * The fallback path: `{id, generateLocalResponse(text, id)}` for each persona of
   * the catalog whose id is selected, in catalog order.
   */
  function FallbackReplies(text: string, selectedIds: seq<string>, catalog: seq<Persona>): (out: seq<PersonaReply>)
    ensures |out| <= |catalog|
    ensures forall o :: o in out ==>
      o.id in selectedIds && o.id in Ids(catalog) && o.comment == LocalResponse(text, o.id)
    ensures forall p :: p in catalog && p.id in selectedIds ==>
      PersonaReply(p.id, LocalResponse(text, p.id)) in out
  {
    var ps := SelectedPersonas(catalog, selectedIds);
    var out := LocalReplies(text, ps);
    assert forall o :: o in out ==> o.id in selectedIds && o.id in Ids(catalog) && o.comment == LocalResponse(text, o.id) by {
      forall o | o in out ensures o.id in selectedIds && o.id in Ids(catalog) && o.comment == LocalResponse(text, o.id) {
        var k :| 0 <= k < |out| && out[k] == o;
        assert ps[k] in ps;
        IdOfMember(catalog, ps[k]);
      }
    }
    assert forall p :: p in catalog && p.id in selectedIds ==> PersonaReply(p.id, LocalResponse(text, p.id)) in out by {
      forall p | p in catalog && p.id in selectedIds ensures PersonaReply(p.id, LocalResponse(text, p.id)) in out {
        var k :| 0 <= k < |ps| && ps[k] == p;
        assert out[k] == PersonaReply(p.id, LocalResponse(text, p.id));
      }
    }
    out
  }

  /** The fallback keeps catalog order: it distributes over concatenation of catalogs. */
  lemma FallbackRepliesAppend(text: string, selectedIds: seq<string>, a: seq<Persona>, b: seq<Persona>)
    ensures FallbackReplies(text, selectedIds, a + b)
         == FallbackReplies(text, selectedIds, a) + FallbackReplies(text, selectedIds, b)
  {
    SelectedPersonasAppend(a, b, selectedIds);
    LocalRepliesAppend(text, SelectedPersonas(a, selectedIds), SelectedPersonas(b, selectedIds));
  }

  lemma LocalRepliesAppend(text: string, x: seq<Persona>, y: seq<Persona>)
    ensures LocalReplies(text, x + y) == LocalReplies(text, x) + LocalReplies(text, y)
  {
    assert forall i :: 0 <= i < |x + y| ==> LocalReplies(text, x + y)[i] == (LocalReplies(text, x) + LocalReplies(text, y))[i];
  }

  /** No two replies carry the same id. */
  predicate DistinctReplyIds(out: seq<PersonaReply>)
  {
    forall i, j :: 0 <= i < j < |out| ==> out[i].id != out[j].id
  }

  /** Over a catalog with distinct ids, the fallback replies carry distinct ids. */
  lemma FallbackRepliesDistinct(text: string, selectedIds: seq<string>, catalog: seq<Persona>)
    requires DistinctIds(catalog)
    ensures DistinctReplyIds(FallbackReplies(text, selectedIds, catalog))
  {
    SelectedDistinct(catalog, selectedIds);
    var ps := SelectedPersonas(catalog, selectedIds);
    assert forall i :: 0 <= i < |ps| ==> FallbackReplies(text, selectedIds, catalog)[i].id == ps[i].id;
  }

  /** The set of ids of a reply list. */
  function ReplyIds(out: seq<PersonaReply>): (ids: set<string>)
    ensures forall o :: o in out ==> o.id in ids
    ensures forall id :: id in ids ==> exists o :: o in out && o.id == id
  {
    if out == [] then {} else {out[0].id} + ReplyIds(out[1..])
  }

  /** A list of replies with distinct ids has as many elements as it has ids. */
  lemma {:induction false} DistinctRepliesCount(out: seq<PersonaReply>)
    requires DistinctReplyIds(out)
    ensures |ReplyIds(out)| == |out|
  {
    if out != [] {
      DistinctReplyTail(out);
      DistinctRepliesCount(out[1..]);
      assert ReplyIds(out) == {out[0].id} + ReplyIds(out[1..]);
    }
  }

  lemma DistinctReplyTail(out: seq<PersonaReply>)
    requires out != [] && DistinctReplyIds(out)
    ensures DistinctReplyIds(out[1..])
    ensures out[0].id !in ReplyIds(out[1..])
  {
    var tail := out[1..];
    forall i, j | 0 <= i < j < |tail| ensures tail[i].id != tail[j].id {
      assert tail[i] == out[i + 1] && tail[j] == out[j + 1];
    }
    forall k | 0 <= k < |tail| ensures tail[k].id != out[0].id {
      assert tail[k] == out[k + 1];
    }
  }

  /**
   * Over a catalog with distinct ids, the fallback gives at most one reply per
   * distinct selected id.
   */
  lemma FallbackWithinSelection(text: string, selectedIds: seq<string>, catalog: seq<Persona>)
    requires DistinctIds(catalog)
    ensures |FallbackReplies(text, selectedIds, catalog)| <= |set id | id in selectedIds|
  {
    var out := FallbackReplies(text, selectedIds, catalog);
    FallbackRepliesDistinct(text, selectedIds, catalog);
    DistinctRepliesCount(out);
    assert ReplyIds(out) <= set id | id in selectedIds;
    SubsetCard(ReplyIds(out), set id | id in selectedIds);
  }

  lemma SubsetCard<T>(a: set<T>, b: set<T>)
    requires a <= b
    ensures |a| <= |b|
  {
    assert b == a + (b - a);
  }

  /**
   * The `responses` array of a usable reply: status ok, generated text present
   * and non-empty, text parsed, `responses` an array. `None` means the reply
   * must be replaced by fallbacks.
   */
  function ResponsesOf(gen: Generated, parse: string -> Option<Json>): (r: Option<seq<Json>>)
    ensures r.Some? <==>
      && gen.Received? && gen.ok && gen.text.Some? && gen.text.value != ""
      && parse(gen.text.value).Some? && IsArray(Get(parse(gen.text.value).value, "responses"))
    ensures r.Some? ==> Get(parse(gen.text.value).value, "responses") == Some(JArray(r.value))
  {
    if gen.TransportFailed? || !gen.ok || gen.text.None? || gen.text.value == "" then None
    else
      match parse(gen.text.value)
      case None => None
      case Some(parsed) =>
        match Get(parsed, "responses")
        case Some(JArray(items)) => Some(items)
        case _ => None
  }

  /**
   * `fetchGeminiPersonas` once the exchange is abstracted: the sanitised
   * responses of a usable reply, else one fallback per selected persona of the
   * catalog (`allPersonas || DEFAULT_PERSONAS`).
   */
  function GetComments(gen: Generated, parse: string -> Option<Json>, text: string,
                       selectedIds: seq<string>, personas: Option<seq<Persona>>): (out: seq<PersonaReply>)
    ensures ResponsesOf(gen, parse).Some? ==> out == Sanitise(ResponsesOf(gen, parse).value)
    ensures ResponsesOf(gen, parse).None? ==> out == FallbackReplies(text, selectedIds, OrDefault(personas))
  {
    match ResponsesOf(gen, parse)
    case Some(items) => Sanitise(items)
    case None => FallbackReplies(text, selectedIds, OrDefault(personas))
  }

  /**
   * Every failure takes the same all-or-nothing path: a failed exchange, a
   * non-ok status, missing or empty text, text that does not parse, and a
   * parsed value without a `responses` array.
   */
  lemma FailuresFallBack(gen: Generated, parse: string -> Option<Json>, text: string,
                         selectedIds: seq<string>, personas: Option<seq<Persona>>)
    requires || gen.TransportFailed?
             || (gen.Received? && !gen.ok)
             || (gen.Received? && (gen.text.None? || gen.text == Some("")))
             || (gen.Received? && gen.text.Some? && parse(gen.text.value).None?)
             || (gen.Received? && gen.text.Some? && parse(gen.text.value).Some?
                 && !IsArray(Get(parse(gen.text.value).value, "responses")))
    ensures GetComments(gen, parse, text, selectedIds, personas) == FallbackReplies(text, selectedIds, OrDefault(personas))
  {
    assert ResponsesOf(gen, parse).None?;
  }

  /**
   * The success path does not look at the selection, the catalog or the diary
   * text: a usable reply is passed on whatever was asked for.
   */
  lemma SuccessIgnoresRequest(gen: Generated, parse: string -> Option<Json>,
                              text1: string, selected1: seq<string>, personas1: Option<seq<Persona>>,
                              text2: string, selected2: seq<string>, personas2: Option<seq<Persona>>)
    requires ResponsesOf(gen, parse).Some?
    ensures GetComments(gen, parse, text1, selected1, personas1) == GetComments(gen, parse, text2, selected2, personas2)
  {
  }

  /** So a reply for an id nobody selected survives sanitising: `{id: "stranger"}` is kept. */
  lemma UnselectedIdSurvives()
    ensures Sanitise([JObject(map["id" := JString("stranger"), "comment" := JString("hi")])])
      == [PersonaReply("stranger", "hi")]
  {
    var reply := JObject(map["id" := JString("stranger"), "comment" := JString("hi")]);
    assert Get(reply, "id") == Some(JString("stranger"));
    assert Get(reply, "comment") == Some(JString("hi"));
    assert WellShaped(reply);
    assert Clip(reply) == PersonaReply("stranger", "hi");
    assert [reply][1..] == [];
  }

  // ---------------------------------------------------------------------------
  // Analysis client

  /** The emotional-insight report attached to an entry. */
  datatype Analysis = Analysis(
    moodScore: int,
    weather: string,
    hiddenEmotions: string,
    luckyAction: string,
    deepAdvice: string)

  /**
   * `Math.min(100, Math.max(0, Number(v) || 50))`: within [0, 100]; `NaN` and 0
   * both become 50.
   */
  function MoodScore(v: Option<Json>): (r: int)
    ensures 0 <= r <= 100
    ensures ToNumber(v).None? || ToNumber(v) == Some(0) ==> r == 50
    ensures ToNumber(v).Some? && 0 < ToNumber(v).value <= 100 ==> r == ToNumber(v).value
    ensures ToNumber(v).Some? && ToNumber(v).value > 100 ==> r == 100
    ensures ToNumber(v).Some? && ToNumber(v).value < 0 ==> r == 0
  {
    var n := ToNumber(v);
    var s := if n.None? || n.value == 0 then 50 else n.value;
    if s > 100 then 100 else if s < 0 then 0 else s
  }

  /** `String(v || fallback).slice(0, cap)`. */
  function TextField(v: Option<Json>, fallback: string, cap: nat): (r: string)
    ensures |r| <= cap
    ensures !TruthyOpt(v) ==> r == Take(fallback, cap)
    ensures v.Some? && v.value.JString? && v.value.s != "" ==> r == Take(v.value.s, cap)
  {
    Take(if TruthyOpt(v) then ToStr(v.value) else fallback, cap)
  }

  const MaxWeatherLength: nat := 50
  const MaxHiddenEmotionsLength: nat := 300
  const MaxLuckyActionLength: nat := 200
  const MaxDeepAdviceLength: nat := 300
  const UnknownWeather: string := "不明"

  /** A report within the documented bounds. */
  predicate WithinBounds(a: Analysis)
  {
    0 <= a.moodScore <= 100 && |a.weather| <= MaxWeatherLength && |a.hiddenEmotions| <= MaxHiddenEmotionsLength
    && |a.luckyAction| <= MaxLuckyActionLength && |a.deepAdvice| <= MaxDeepAdviceLength
  }

  /**
   * The coercion of a parsed analysis reply. Reading a property of `null` throws,
   * which makes the whole call return `null`; any other value is coerced field
   * by field, missing fields taking their defaults.
   */
  function CoerceAnalysis(parsed: Json): (r: Option<Analysis>)
    ensures r.None? <==> parsed == JNull
    ensures r.Some? ==> WithinBounds(r.value)
    ensures r.Some? ==> r.value == Analysis(
      MoodScore(Get(parsed, "mood_score")),
      TextField(Get(parsed, "emotional_weather"), UnknownWeather, MaxWeatherLength),
      TextField(Get(parsed, "hidden_emotions"), "", MaxHiddenEmotionsLength),
      TextField(Get(parsed, "lucky_action"), "", MaxLuckyActionLength),
      TextField(Get(parsed, "deep_advice"), "", MaxDeepAdviceLength))
  {
    if parsed.JNull? then None
    else Some(Analysis(
      MoodScore(Get(parsed, "mood_score")),
      TextField(Get(parsed, "emotional_weather"), UnknownWeather, MaxWeatherLength),
      TextField(Get(parsed, "hidden_emotions"), "", MaxHiddenEmotionsLength),
      TextField(Get(parsed, "lucky_action"), "", MaxLuckyActionLength),
      TextField(Get(parsed, "deep_advice"), "", MaxDeepAdviceLength)))
  }

  /**
   * `fetchGeminiAnalysis` once the exchange is abstracted. The HTTP status is
   * not checked; a missing text makes `JSON.parse` throw; every failure is `None`.
   */
  function FetchAnalysis(gen: Generated, parse: string -> Option<Json>): (r: Option<Analysis>)
    ensures gen.TransportFailed? || gen.text.None? ==> r.None?
    ensures gen.Received? && gen.text.Some? && parse(gen.text.value).None? ==> r.None?
    ensures gen.Received? && gen.text.Some? && parse(gen.text.value).Some? ==>
      r == CoerceAnalysis(parse(gen.text.value).value)
    ensures r.Some? ==> WithinBounds(r.value)
  {
    if gen.TransportFailed? || gen.text.None? then None
    else
      match parse(gen.text.value)
      case None => None
      case Some(parsed) => CoerceAnalysis(parsed)
  }

  /** The analysis path ignores the HTTP status: only the body's text matters. */
  lemma AnalysisIgnoresStatus(text: Option<string>, parse: string -> Option<Json>)
    ensures FetchAnalysis(Received(true, text), parse) == FetchAnalysis(Received(false, text), parse)
  {
  }

  /** A parsed value that is not an object, and not `null`, yields the all-default report. */
  lemma NonObjectGivesDefaults(parsed: Json)
    requires !parsed.JNull? && !parsed.JObject?
    ensures CoerceAnalysis(parsed) == Some(Analysis(50, UnknownWeather, "", "", ""))
  {
  }

  /** Sample numeric scores: -5 becomes 0, 0 becomes 50, 150 becomes 100; a missing score is 50. */
  lemma MoodScoreNumberSamples()
    ensures MoodScore(Some(JNumber(-5))) == 0
    ensures MoodScore(Some(JNumber(0))) == 50
    ensures MoodScore(Some(JNumber(150))) == 100
    ensures MoodScore(None) == 50
  {
  }

  /** A string that is not a number, "abc", scores 50. */
  lemma MoodScoreOfText()
    ensures MoodScore(Some(JString("abc"))) == 50
  {
    var t := "abc";
    assert !IsWhitespace(t[0]) && !IsWhitespace(t[2]);
    assert TrimStart(t) == t;
    assert TrimEnd(t) == t;
    assert Trim(t) == t;
    assert !IsDigit(t[0]) && t[0] != '+' && t[0] != '-';
    assert !AllDigits(t);
    assert StringToNumber(t) == None;
  }

  /** A numeric string with surrounding blanks, " 42 ", scores 42. */
  lemma MoodScoreOfNumericText()
    ensures MoodScore(Some(JString(" 42 "))) == 42
  {
    PaddedFortyTwoTrims();
    FortyTwoDigits();
    assert StringToNumber(" 42 ") == Some(42);
    assert ToNumber(Some(JString(" 42 "))) == Some(42);
  }

  lemma PaddedFortyTwoTrims()
    ensures Trim(" 42 ") == "42"
  {
    assert TrimStart(" 42 ") == "42 " by {
      assert IsWhitespace(" 42 "[0]);
      assert " 42 "[1..] == "42 ";
      assert !IsWhitespace("42 "[0]);
    }
    assert TrimEnd("42 ") == "42" by {
      assert IsWhitespace("42 "[2]);
      assert "42 "[..2] == "42";
      assert !IsWhitespace("42"[1]);
    }
  }

  lemma FortyTwoDigits()
    ensures AllDigits("42") && DigitsValue("42") == 42
  {
    assert "42"[..1] == "4";
    assert "4"[..0] == "";
  }

  /** The report written back as the object `{ ...entry, analysis }` stores. */
  function AnalysisToJson(a: Analysis): (j: Json)
    ensures j.JObject?
    ensures Get(j, "mood_score") == Some(JNumber(a.moodScore))
    ensures Get(j, "emotional_weather") == Some(JString(a.weather))
    ensures Get(j, "hidden_emotions") == Some(JString(a.hiddenEmotions))
    ensures Get(j, "lucky_action") == Some(JString(a.luckyAction))
    ensures Get(j, "deep_advice") == Some(JString(a.deepAdvice))
    ensures j.fields.Keys == {"mood_score", "emotional_weather", "hidden_emotions", "lucky_action", "deep_advice"}
  {
    JObject(map[
      "mood_score" := JNumber(a.moodScore),
      "emotional_weather" := JString(a.weather),
      "hidden_emotions" := JString(a.hiddenEmotions),
      "lucky_action" := JString(a.luckyAction),
      "deep_advice" := JString(a.deepAdvice)])
  }

  // ---------------------------------------------------------------------------
  // Model selection

  const DefaultModel: string := "flash"
  const FlashEndpoint: string := "gemini-2.5-flash"
  const ProEndpoint: string := "gemini-2.5-pro"

  /** `modelId || localStorage.getItem('gemini_model') || DEFAULT_MODEL`. */
  function SelectedModel(requested: Option<string>, saved: Option<string>): (m: string)
    ensures requested.Some? && requested.value != "" ==> m == requested.value
    ensures (requested.None? || requested == Some("")) && saved.Some? && saved.value != "" ==> m == saved.value
    ensures (requested.None? || requested == Some("")) && (saved.None? || saved == Some("")) ==> m == DefaultModel
  {
    if requested.Some? && requested.value != "" then requested.value
    else if saved.Some? && saved.value != "" then saved.value
    else DefaultModel
  }

  /** `GEMINI_MODELS[model]?.endpoint || GEMINI_MODELS.flash.endpoint`: unknown ids use flash. */
  function ModelEndpoint(model: string): (e: string)
    ensures e == ProEndpoint <==> model == "pro"
    ensures e == FlashEndpoint <==> model != "pro"
  {
    if model == "flash" then FlashEndpoint
    else if model == "pro" then ProEndpoint
    else FlashEndpoint
  }
}
