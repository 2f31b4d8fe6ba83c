/** The add-accommodation form: its initial values, the choice of the miqaat the form starts
    with, the date sync when a miqaat is picked, and the lookup that fills the member's name. */
module AddAccommodationPage {
  import opened Common
  import opened Text

  /** A miqaat as the form lists it: the date strings shown and copied into the form, and the
      instants (milliseconds) they parse to. */
  datatype Miqaat = Miqaat(id: int, name: string, startDate: string, endDate: string, startAt: int, endAt: int)

  /** A member record as the lookups return it. */
  datatype Person = Person(itsId: string, name: string, fullName: Option<string>)

  /** The answer of the miqaat request: it threw, it came back without data, or with a list. */
  datatype MiqaatAnswer = Threw | Unsuccessful | Success(data: seq<Miqaat>)

  type Form = map<string, string>

  const FormKeys: set<string> := {
    "its_id", "mumineen_name", "miqaat_id", "name", "city", "pincode",
    "accommodation_type", "room_number", "check_in_date", "check_out_date"}

  const InitialForm: Form := map[
    "its_id" := "", "mumineen_name" := "", "miqaat_id" := "", "name" := "",
    "city" := "Colombo", "pincode" := "00100", "accommodation_type" := "",
    "room_number" := "", "check_in_date" := "", "check_out_date" := ""]

  /** Every field starts empty except the city and the pincode. */
  lemma InitialFormDefaults()
    ensures InitialForm.Keys == FormKeys
    ensures forall k :: k in InitialForm ==>
      InitialForm[k] == (if k == "city" then "Colombo" else if k == "pincode" then "00100" else "")
  {
  }

  /** The list used when the request gives nothing; dates are midnight UTC. */
  const MockMiqaats: seq<Miqaat> := [
    Miqaat(1, "Milad Imam uz Zaman", "2025-06-15", "2025-06-15", 1749945600000, 1749945600000),
    Miqaat(2, "Eid ul Adha", "2025-06-25", "2025-06-26", 1750809600000, 1750896000000),
    Miqaat(3, "Ashara Mubaraka", "2025-08-08", "2025-08-17", 1754611200000, 1755388800000)
  ]

  const MockMumineen: seq<Person> := [
    Person("ITS1234567", "Ahmed Qutbuddin", None),
    Person("ITS7654321", "Fatima Qutbuddin", None),
    Person("ITS2468013", "Taher Saifuddin", None),
    Person("ITS1357924", "Khadija Saifuddin", None),
    Person("ITS9876543", "Hussain Burhani", None),
    Person("ITS8642097", "Maryam Najmuddin", None),
    Person("ITS3690147", "Zainab Akbarali", None)
  ]

  // ---------------------------------------------------------------- choosing the miqaat

  /** `startDate <= today && endDate >= today`, compared as instants: a miqaat whose last day
      is today stops being active after midnight of that day. */
  predicate IsActive(m: Miqaat, now: int)
  {
    m.startAt <= now <= m.endAt
  }

  /** `find`: the first active miqaat in list order. */
  function FirstActive(list: seq<Miqaat>, now: int): (r: Option<Miqaat>)
    ensures r.None? <==> forall i :: 0 <= i < |list| ==> !IsActive(list[i], now)
    ensures r.Some? ==> exists i :: (0 <= i < |list| && list[i] == r.value && IsActive(r.value, now)
      && forall j :: 0 <= j < i ==> !IsActive(list[j], now))
  {
    if list == [] then None
    else if IsActive(list[0], now) then Some(list[0])
    else
      var rest := FirstActive(list[1..], now);
      assert forall i :: 0 < i < |list| ==> list[i] == list[1..][i - 1];
      rest
  }

  /** `activeMiqaat || miqaatsList[0]`; `None` when the list is empty and `.id` would throw. */
  function SelectMiqaat(list: seq<Miqaat>, now: int): (r: Option<Miqaat>)
    ensures r.None? <==> list == []
    ensures r.Some? ==> r.value in list
    ensures list != [] && (forall i :: 0 <= i < |list| ==> !IsActive(list[i], now)) ==> r == Some(list[0])
    ensures r.Some? && (exists i :: 0 <= i < |list| && IsActive(list[i], now)) ==> r == FirstActive(list, now)
  {
    if list == [] then None
    else
      match FirstActive(list, now)
      case Some(m) => Some(m)
      case None => Some(list[0])
  }

  /** The form after a miqaat is chosen: its id as text and its two dates. */
  function WithMiqaat(form: Form, idText: string, m: Miqaat): (r: Form)
    ensures r.Keys == form.Keys + {"miqaat_id", "check_in_date", "check_out_date"}
    ensures r["miqaat_id"] == idText && r["check_in_date"] == m.startDate && r["check_out_date"] == m.endDate
    ensures forall k :: k in form && k != "miqaat_id" && k != "check_in_date" && k != "check_out_date" ==> r[k] == form[k]
  {
    form["miqaat_id" := idText]["check_in_date" := m.startDate]["check_out_date" := m.endDate]
  }

  /** `m.id === parseInt(value)`: the first listed miqaat with that id; NaN finds none. */
  function FindById(list: seq<Miqaat>, id: Option<int>): (r: Option<Miqaat>)
    ensures r.Some? <==> id.Some? && exists m :: m in list && m.id == id.value
    ensures r.Some? ==> r.value in list && r.value.id == id.value
  {
    if list == [] || id.None? then None
    else if list[0].id == id.value then Some(list[0])
    else FindById(list[1..], id)
  }

  // ---------------------------------------------------------------- handleChange

  /** `handleChange`: the named field takes the value; a non-empty `miqaat_id` naming a listed
      miqaat also copies that miqaat's dates. */
  function Changed(form: Form, miqaats: seq<Miqaat>, name: string, value: string): (r: Form)
    ensures name in r && r[name] == value
    ensures forall k :: k in form && k != name && k != "check_in_date" && k != "check_out_date" ==> k in r && r[k] == form[k]
    ensures name != "miqaat_id" ==> r == form[name := value]
  {
    var f := form[name := value];
    if name == "miqaat_id" && value != "" then
      match FindById(miqaats, ParseInt(value))
      case Some(m) => WithMiqaat(f, value, m)
      case None => f
    else f
  }

  /** Picking a miqaat by its id text copies its dates; picking an id no miqaat has changes
      the id field alone. */
  lemma ChangedSyncsDates(form: Form, miqaats: seq<Miqaat>, m: Miqaat)
    requires m in miqaats && forall x :: x in miqaats && x.id == m.id ==> x == m
    ensures Changed(form, miqaats, "miqaat_id", IntToString(m.id))
      == WithMiqaat(form["miqaat_id" := IntToString(m.id)], IntToString(m.id), m)
  {
    ParseIntOfIntToString(m.id);
  }

  lemma ChangedUnknownId(form: Form, miqaats: seq<Miqaat>, value: string)
    requires ParseInt(value).None? || forall x :: x in miqaats ==> Some(x.id) != ParseInt(value)
    ensures Changed(form, miqaats, "miqaat_id", value) == form["miqaat_id" := value]
  {
  }

  // ---------------------------------------------------------------- the ITS lookup

  /** `full_name || name || ''`. */
  function DisplayName(p: Person): string
  {
    if p.fullName.Some? && p.fullName.value != "" then p.fullName.value else p.name
  }

  /** The fallback: the first entry whose id equals the input ignoring case. */
  function FirstMatch(list: seq<Person>, itsId: string): (r: Option<Person>)
    ensures r.None? <==> forall p :: p in list ==> Lower(p.itsId) != Lower(itsId)
    ensures r.Some? ==> exists i :: (0 <= i < |list| && list[i] == r.value && Lower(r.value.itsId) == Lower(itsId)
      && forall j :: 0 <= j < i ==> Lower(list[j].itsId) != Lower(itsId))
  {
    if list == [] then None
    else if Lower(list[0].itsId) == Lower(itsId) then Some(list[0])
    else
      var rest := FirstMatch(list[1..], itsId);
      assert forall i :: 0 < i < |list| ==> list[i] == list[1..][i - 1];
      rest
  }

  /** The form's state. */
  class AddAccommodationForm {
    var form: Form
    var miqaats: seq<Miqaat>
    var mumineen: seq<Person>

    constructor ()
      ensures form == InitialForm && miqaats == [] && mumineen == []
    {
      form := InitialForm;
      miqaats := [];
      mumineen := [];
    }

    /** `setMumineen(mockedMumineen)`. */
    method InstallMockMumineen()
      modifies this
      ensures mumineen == MockMumineen && form == old(form) && miqaats == old(miqaats)
    {
      mumineen := MockMumineen;
    }

    /** `fetchMiqaats`: an unsuccessful answer falls back to the mock list; the chosen miqaat
        sets the form's miqaat and dates; an empty list makes the selection throw, and the
        handler then installs the mock list and leaves the form as it was. */
    method FetchMiqaats(answer: MiqaatAnswer, now: int)
      modifies this
      ensures answer.Threw? ==> miqaats == MockMiqaats && form == old(form)
      ensures answer.Success? && answer.data == [] ==> miqaats == MockMiqaats && form == old(form)
      ensures answer.Unsuccessful? ==> (miqaats == MockMiqaats
        && form == WithMiqaat(old(form), IntToString(SelectMiqaat(MockMiqaats, now).value.id), SelectMiqaat(MockMiqaats, now).value))
      ensures answer.Success? && answer.data != [] ==> (miqaats == answer.data
        && form == WithMiqaat(old(form), IntToString(SelectMiqaat(answer.data, now).value.id), SelectMiqaat(answer.data, now).value))
      ensures mumineen == old(mumineen)
    {
      if answer.Threw? {
        miqaats := MockMiqaats;
        return;
      }
      var list: seq<Miqaat> := [];
      if answer.Success? {
        list := answer.data;
      } else {
        list := MockMiqaats;
      }
      miqaats := list;
      var selected := SelectMiqaat(list, now);
      if selected.None? {
        miqaats := MockMiqaats;
        return;
      }
      var m := selected.value;
      form := WithMiqaat(form, IntToString(m.id), m);
    }

    /** `handleChange` for one input. */
    method HandleChange(name: string, value: string)
      modifies this
      ensures form == Changed(old(form), miqaats, name, value)
      ensures miqaats == old(miqaats) && mumineen == old(mumineen)
    {
      form := form[name := value];
      if name == "miqaat_id" && value != "" {
        var found := FindById(miqaats, ParseInt(value));
        if found.Some? {
          form := WithMiqaat(form, value, found.value);
        }
      }
    }

    /** `fetchMumineenData`: nothing for an empty id; otherwise the id is written at once, then
        overwritten with the record the request found, or else with the first case-insensitive
        match of the local list, and left alone when neither finds one. A request that threw is
        `found == None`, as is an unsuccessful one. */
    method FetchMumineenData(itsId: string, found: Option<Person>)
      modifies this
      ensures itsId == "" ==> form == old(form)
      ensures itsId != "" && found.Some? ==>
        form == old(form)["its_id" := found.value.itsId]["mumineen_name" := DisplayName(found.value)]
      ensures itsId != "" && found.None? && FirstMatch(mumineen, itsId).Some? ==>
        form == old(form)["its_id" := FirstMatch(mumineen, itsId).value.itsId]["mumineen_name" := FirstMatch(mumineen, itsId).value.name]
      ensures itsId != "" && found.None? && FirstMatch(mumineen, itsId).None? ==>
        form == old(form)["its_id" := itsId]
      ensures miqaats == old(miqaats) && mumineen == old(mumineen)
    {
      if itsId == "" {
        return;
      }
      form := form["its_id" := itsId];
      if found.Some? {
        form := form["its_id" := found.value.itsId]["mumineen_name" := DisplayName(found.value)];
      } else {
        var fallback := FirstMatch(mumineen, itsId);
        if fallback.Some? {
          form := form["its_id" := fallback.value.itsId]["mumineen_name" := fallback.value.name];
        }
      }
    }
  }
}
