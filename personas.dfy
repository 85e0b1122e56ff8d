/**
 * The built-in persona roster and the icon and colour palettes offered when a
 * custom persona is created (src/constants/personas.js).
 */
module Personas {
  import opened Common

  /**
   * A persona: a character whose description styles the generated commentary.
   * `name` is at most 20 characters, `role` at most 10 and `desc` at most 200
   * for personas created through the form; built-ins are fixed.
   */
  datatype Persona = Persona(
    id: string,
    name: string,
    role: string,
    icon: string,
    color: string,
    desc: string,
    isDefault: bool)

  /** The six built-in personas, in registry-encounter order; they cannot be deleted. */
  const DefaultPersonas: seq<Persona> := [
    Persona("teacher", "田中先生", "先生", "👨‍🏫", "bg-green-100 text-green-800",
      "優しく諭してくれる恩師。少し古風だが生徒思い。教育的指導を含めることが多い。", true),
    Persona("friend", "親友のミカ", "友達", "👱‍♀️", "bg-yellow-100 text-yellow-800",
      "いつも味方でいてくれる元気な友人。ギャル語混じりで、共感力が高い。テンションが高い。", true),
    Persona("lover", "恋人のユウタ", "恋人", "🥰", "bg-pink-100 text-pink-800",
      "全肯定してくれる甘い存在。ユーザーのことが大好きで、少し過保護。キザなセリフも言う。", true),
    Persona("aunt", "お節介な叔母さん", "親戚", "👵", "bg-orange-100 text-orange-800",
      "心配性で現実的なアドバイスをくれる。健康や食事のことを気にする。口調は「〜だわよ」「〜しなさい」。", true),
    Persona("celeb", "カリスマタレントRay", "有名人", "😎", "bg-purple-100 text-purple-800",
      "少し上から目線だが、夢を語るスター。英語混じりのルー大柴的な口調。ポジティブで野心的。", true),
    Persona("isekai", "暗黒騎士ゼイド", "異世界人", "🐉", "bg-gray-800 text-gray-100",
      "現代の常識が通じない、魔界の住人。ユーザーを「契約者」や「盟友」と呼ぶ。中二病的な言い回し。", true)
  ]

  /** The icons a custom persona may take. */
  const AvailableIcons: seq<string> := [
    "😀", "😎", "🥰", "😇", "🤗", "😈", "👨", "👩", "👴", "👵",
    "🧑‍🎤", "🧑‍💼", "🧑‍🔬", "🧑‍🎨", "🦸", "🧙", "🧛", "🧜",
    "🐱", "🐶", "🦊", "🐰", "🐻", "🐼", "🦁", "🐲", "👽", "🤖", "👻", "💀"
  ]

  /** A colour choice: a short id, the style classes stored on the persona, and its caption (`label`). */
  datatype ColorOption = ColorOption(id: string, value: string, caption: string)

  /** The colours a custom persona may take. */
  const AvailableColors: seq<ColorOption> := [
    ColorOption("green", "bg-green-100 text-green-800", "緑"),
    ColorOption("yellow", "bg-yellow-100 text-yellow-800", "黄"),
    ColorOption("pink", "bg-pink-100 text-pink-800", "ピンク"),
    ColorOption("orange", "bg-orange-100 text-orange-800", "オレンジ"),
    ColorOption("purple", "bg-purple-100 text-purple-800", "紫"),
    ColorOption("blue", "bg-blue-100 text-blue-800", "青"),
    ColorOption("red", "bg-red-100 text-red-800", "赤"),
    ColorOption("gray", "bg-gray-800 text-gray-100", "黒"),
    ColorOption("indigo", "bg-indigo-100 text-indigo-800", "藍"),
    ColorOption("teal", "bg-teal-100 text-teal-800", "ティール")
  ]

  /** The selection used when none has been saved: two built-ins. */
  const DefaultSelection: seq<string> := ["teacher", "friend"]

  /** The ids of a persona list, position by position (`list.map(p => p.id)`). */
  function Ids(ps: seq<Persona>): (r: seq<string>)
    ensures |r| == |ps|
    ensures forall i :: 0 <= i < |ps| ==> r[i] == ps[i].id
  {
    seq(|ps|, i requires 0 <= i < |ps| => ps[i].id)
  }

  /** A listed persona's id is among the list's ids. */
  lemma IdOfMember(ps: seq<Persona>, p: Persona)
    requires p in ps
    ensures p.id in Ids(ps)
  {
    var m :| 0 <= m < |ps| && ps[m] == p;
    assert Ids(ps)[m] == p.id;
  }

  /** No two personas of the list share an id. */
  predicate DistinctIds(ps: seq<Persona>)
  {
    forall i, j :: 0 <= i < j < |ps| ==> ps[i].id != ps[j].id
  }

  /** Dropping the first persona keeps the ids distinct, and the first id does not recur. */
  lemma DistinctTail(raw: seq<Persona>)
    requires raw != [] && DistinctIds(raw)
    ensures DistinctIds(raw[1..])
    ensures raw[0].id !in Ids(raw[1..])
  {
    var tail := raw[1..];
    forall i, j | 0 <= i < j < |tail| ensures tail[i].id != tail[j].id {
      assert tail[i] == raw[i + 1] && tail[j] == raw[j + 1];
    }
    forall k | 0 <= k < |tail| ensures Ids(tail)[k] != raw[0].id {
      assert tail[k] == raw[k + 1];
    }
  }

  /** Putting a persona with a new id in front keeps the ids distinct. */
  lemma ConsDistinct(p: Persona, rest: seq<Persona>)
    requires DistinctIds(rest)
    requires forall q :: q in rest ==> q.id != p.id
    ensures DistinctIds([p] + rest)
  {
    var r := [p] + rest;
    forall i, j | 0 <= i < j < |r| ensures r[i].id != r[j].id {
      assert r[j] == rest[j - 1] && rest[j - 1] in rest;
      if i > 0 {
        assert r[i] == rest[i - 1];
      }
    }
  }

  /** `allPersonas || DEFAULT_PERSONAS`: a missing list falls back to the built-ins. */
  function OrDefault(personas: Option<seq<Persona>>): (r: seq<Persona>)
    ensures personas.None? ==> r == DefaultPersonas
    ensures personas.Some? ==> r == personas.value
  {
    if personas.Some? then personas.value else DefaultPersonas
  }

  /** There are exactly six built-ins, with pairwise distinct ids, all flagged as defaults. */
  lemma RosterShape()
    ensures |DefaultPersonas| == 6
    ensures DistinctIds(DefaultPersonas)
    ensures forall p :: p in DefaultPersonas ==> p.isDefault
    ensures Ids(DefaultPersonas) == BuiltinIds
  {
    RosterIds();
    DistinctWhenIdsAre(DefaultPersonas);
  }

  /** The built-in ids, in roster order. */
  const BuiltinIds: seq<string> := ["teacher", "friend", "lover", "aunt", "celeb", "isekai"]

  lemma RosterIds()
    ensures |DefaultPersonas| == 6 && Ids(DefaultPersonas) == BuiltinIds
  {
    var ids := Ids(DefaultPersonas);
    assert ids[0] == "teacher" && ids[1] == "friend" && ids[2] == "lover";
    assert ids[3] == "aunt" && ids[4] == "celeb" && ids[5] == "isekai";
  }

  /** Any list carrying the built-in ids has distinct ids: their initials already differ. */
  lemma DistinctWhenIdsAre(ps: seq<Persona>)
    requires Ids(ps) == BuiltinIds
    ensures DistinctIds(ps)
  {
    var initials := "tflaci";
    assert forall k :: 0 <= k < 6 ==> BuiltinIds[k][0] == initials[k];
    forall i, j | 0 <= i < j < |ps| ensures ps[i].id != ps[j].id {
      assert Ids(ps)[i] == ps[i].id && Ids(ps)[j] == ps[j].id;
    }
  }

  /** Both ids of the default selection name built-in personas. */
  lemma DefaultSelectionIsBuiltin()
    ensures forall id :: id in DefaultSelection ==> id in Ids(DefaultPersonas)
  {
    assert Ids(DefaultPersonas)[0] == "teacher";
    assert Ids(DefaultPersonas)[1] == "friend";
  }

  /** The colour ids are pairwise distinct and the default icon is among the icons. */
  lemma PaletteShape()
    ensures forall i, j :: 0 <= i < j < |AvailableColors| ==> AvailableColors[i].id != AvailableColors[j].id
    ensures "😀" in AvailableIcons
  {
  }
}
