/**
 * The add-persona form (src/components/AddPersonaModal.jsx): five form fields
 * whose change handlers cap their lengths, and the submit handler that
 * validates them and builds a fresh custom persona.
 */
module AddPersonaModal {
  import opened Common
  import opened Personas
  import opened App

  const MaxNameLength: nat := 20
  const MaxRoleLength: nat := 10
  const MaxDescLength: nat := 200

  /** The icon the form starts with. */
  const DefaultIcon: string := "😀"

  /** Every custom persona id starts with this. */
  const CustomPrefix: string := "custom_"

  /** `` `custom_${Date.now()}` ``: the id minted for a persona created at time `now`. */
  function CustomId(now: nat): (id: string)
    ensures CustomPrefix <= id
    ensures id[|CustomPrefix|..] == NatToString(now)
  {
    CustomPrefix + NatToString(now)
  }

  /** Personas created at different times get different ids. */
  lemma CustomIdInjective(m: nat, n: nat)
    requires m != n
    ensures CustomId(m) != CustomId(n)
  {
    if CustomId(m) == CustomId(n) {
      assert NatToString(m) == CustomId(m)[|CustomPrefix|..];
      NatToStringInjective(m, n);
    }
  }

  /** No built-in id starts with `custom_`, so a minted id never names a built-in. */
  lemma CustomIdNotBuiltin(now: nat)
    ensures CustomId(now) !in Ids(DefaultPersonas)
  {
    RosterShape();
    var id := CustomId(now);
    assert id[0] == 'c' && id[1] == 'u';
    assert Ids(DefaultPersonas)[0][0] == 't' && Ids(DefaultPersonas)[1][0] == 'f';
    assert Ids(DefaultPersonas)[2][0] == 'l' && Ids(DefaultPersonas)[3][0] == 'a';
    assert Ids(DefaultPersonas)[4][0] == 'c' && Ids(DefaultPersonas)[4][1] == 'e';
    assert Ids(DefaultPersonas)[5][0] == 'i';
  }

  /**
   * `handleSubmit`: nothing when the trimmed name, role or description is
   * empty; otherwise a non-default persona with the minted id, the trimmed
   * fields cut to 20, 10 and 200 characters, and the chosen icon and colour.
   */
  function BuildPersona(name: string, role: string, icon: string, color: string, desc: string, now: nat)
    : (r: Option<Persona>)
    ensures r.None? <==> Trim(name) == "" || Trim(role) == "" || Trim(desc) == ""
    ensures r.Some? ==>
      && r.value.id == CustomId(now) && !r.value.isDefault
      && r.value.name == Take(Trim(name), MaxNameLength)
      && r.value.role == Take(Trim(role), MaxRoleLength)
      && r.value.desc == Take(Trim(desc), MaxDescLength)
      && r.value.icon == icon && r.value.color == color
    ensures r.Some? ==>
      && 0 < |r.value.name| <= MaxNameLength
      && 0 < |r.value.role| <= MaxRoleLength
      && 0 < |r.value.desc| <= MaxDescLength
  {
    if Trim(name) == "" || Trim(role) == "" || Trim(desc) == "" then None
    else Some(Persona(CustomId(now), Take(Trim(name), MaxNameLength), Take(Trim(role), MaxRoleLength),
      icon, color, Take(Trim(desc), MaxDescLength), false))
  }

  /** A blank name is rejected whatever the other fields hold. */
  lemma BlankNameRejected(role: string, icon: string, color: string, desc: string, now: nat)
    ensures BuildPersona("", role, icon, color, desc, now).None?
  {
  }

  /**
   * When every custom persona so far was minted at an earlier time, adding
   * the new one keeps the registry's ids distinct: it collides neither with a
   * built-in nor with an earlier custom persona.
   */
  lemma {:induction false} AddKeepsIdsDistinct(customs: seq<Persona>, mintedAt: seq<nat>, p: Persona, now: nat)
    requires DistinctIds(AllPersonasRaw(customs))
    requires |mintedAt| == |customs|
    requires forall i :: 0 <= i < |customs| ==> customs[i].id == CustomId(mintedAt[i]) && mintedAt[i] < now
    requires p.id == CustomId(now)
    ensures DistinctIds(AllPersonasRaw(customs + [p]))
  {
    var before := AllPersonasRaw(customs);
    var after := AllPersonasRaw(customs + [p]);
    assert after == before + [p];
    forall i | 0 <= i < |before| ensures before[i].id != p.id {
      if i < |DefaultPersonas| {
        assert before[i] == DefaultPersonas[i];
        CustomIdNotBuiltin(now);
        assert Ids(DefaultPersonas)[i] == before[i].id;
      } else {
        var k := i - |DefaultPersonas|;
        assert before[i] == customs[k];
        CustomIdInjective(mintedAt[k], now);
      }
    }
    forall i, j | 0 <= i < j < |after| ensures after[i].id != after[j].id {
      if j < |before| {
        assert after[i] == before[i] && after[j] == before[j];
      } else {
        assert after[i] == before[i] && after[j] == p;
      }
    }
  }

  /** The form's state: the fields the user edits before submitting. */
  class PersonaForm {
    var name: string
    var role: string
    var icon: string
    var color: string
    var desc: string

    /** The change handlers keep every text field within its cap. */
    ghost predicate Valid()
      reads this`name, this`role, this`desc
    {
      |name| <= MaxNameLength && |role| <= MaxRoleLength && |desc| <= MaxDescLength
    }

    /** Empty texts, the smiling icon and the first colour of the palette. */
    constructor ()
      ensures Valid()
      ensures name == "" && role == "" && desc == ""
      ensures icon == DefaultIcon && color == AvailableColors[0].value
    {
      name, role, desc := "", "", "";
      icon, color := DefaultIcon, AvailableColors[0].value;
    }

    /** The name input keeps the first 20 characters of what was typed. */
    method SetName(value: string)
      requires Valid()
      modifies this`name
      ensures Valid()
      ensures name == Take(value, MaxNameLength)
    {
      name := Take(value, MaxNameLength);
    }

    /** The role input keeps the first 10 characters of what was typed. */
    method SetRole(value: string)
      requires Valid()
      modifies this`role
      ensures Valid()
      ensures role == Take(value, MaxRoleLength)
    {
      role := Take(value, MaxRoleLength);
    }

    /** The description area keeps the first 200 characters of what was typed. */
    method SetDesc(value: string)
      requires Valid()
      modifies this`desc
      ensures Valid()
      ensures desc == Take(value, MaxDescLength)
    {
      desc := Take(value, MaxDescLength);
    }

    /** Picking an icon from the grid. */
    method SetIcon(value: string)
      modifies this`icon
      ensures icon == value
    {
      icon := value;
    }

    /** Picking a colour from the palette. */
    method SetColor(value: string)
      modifies this`color
      ensures color == value
    {
      color := value;
    }

    /**
     * `handleSubmit` at time `now`: the persona handed to `onAdd`, or nothing
     * (the user is alerted) when a required field is blank. The form is not
     * changed.
     */
    method Submit(now: nat) returns (added: Option<Persona>)
      ensures added.None? <==> Trim(name) == "" || Trim(role) == "" || Trim(desc) == ""
      ensures added.Some? ==> added == BuildPersona(name, role, icon, color, desc, now)
      ensures added.Some? ==> added.value.id == CustomId(now) && !added.value.isDefault
    {
      added := BuildPersona(name, role, icon, color, desc, now);
    }
  }
}
