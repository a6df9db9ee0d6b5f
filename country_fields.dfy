/**
 * Reshaping the address form when its country changes
 * (checkout/static/src/js/checkout.js, `_onChangeCountry` / `_changeCountry`):
 * the state drop-down is refilled from the country's states, the zip and city
 * fields are ordered, and the optional fields are shown or hidden.  The answer
 * of `/shop/country_infos/<id>` is an input.
 */
module CountryFields {
  import opened Wrappers

  /** One entry `[id, name, code]` of the answer's `states`. */
  datatype StateRow = StateRow(id: int, name: string, code: string)

  /** An `<option>` of the state drop-down: its value, text and `data-code`. */
  datatype StateOption = StateOption(value: int, text: string, code: string)

  /** The answer of `/shop/country_infos/<id>`; `fields` may be absent. */
  datatype CountryInfo = CountryInfo(states: seq<StateRow>, fields: Option<seq<string>>)

  /** The fields whose containers `_changeCountry` shows or hides. */
  const AllFields: seq<string> := ["street", "zip", "city", "country_name"]

  function OptionOf(row: StateRow): StateOption {
    StateOption(row.id, row.name, row.code)
  }

  /** The options built from `states`, in the server's order. */
  function OptionsOf(states: seq<StateRow>): (opts: seq<StateOption>)
    ensures |opts| == |states|
    ensures forall i :: 0 <= i < |states| ==> opts[i] == OptionOf(states[i])
  {
    seq(|states|, i requires 0 <= i < |states| => OptionOf(states[i]))
  }

  /** jQuery's `$.inArray`: the first position of `x` in `s`, or -1. */
  function IndexOf(s: seq<string>, x: string): (r: int)
    ensures -1 <= r < |s|
    ensures r == -1 <==> x !in s
    ensures r >= 0 ==> s[r] == x
    ensures forall j :: 0 <= j < r ==> s[j] != x
  {
    if s == [] then -1
    else if s[0] == x then 0
    else
      var j := IndexOf(s[1..], x);
      if j == -1 then -1 else j + 1
  }

  /**
   * The city field goes before the zip field when the country lists a zip
   * and, before its first zip, a city (or lists no city at all).
   */
  function CityBeforeZip(fields: seq<string>): (b: bool)
    ensures b <==> exists j :: 0 <= j < |fields| && fields[j] == "zip" && "zip" !in fields[..j] &&
                              ("city" !in fields || "city" in fields[..j])
  {
    IndexOf(fields, "zip") > IndexOf(fields, "city")
  }

  /** `field.split("_")[0]`: the part of the name before its first underscore. */
  function DivSuffix(field: string): (d: string)
    ensures d <= field
    ensures '_' !in d
    ensures d == field || field[|d|] == '_'
  {
    if field == [] || field[0] == '_' then [] else [field[0]] + DivSuffix(field[1..])
  }

  /** Shows `.div_<suffix>` for each of `fs`, in turn, exactly when the country lists it. */
  function ToggleAll(shown: map<string, bool>, fs: seq<string>, listed: seq<string>): map<string, bool>
    decreases |fs|
  {
    if fs == [] then shown
    else
      var last := fs[|fs| - 1];
      ToggleAll(shown, fs[..|fs| - 1], listed)[DivSuffix(last) := last in listed]
  }

  lemma {:induction false} DivSuffixOfCompoundName(p: string, q: string)
    requires '_' !in p
    ensures DivSuffix(p + "_" + q) == p
  {
    if p != [] {
      assert (p + "_" + q)[1..] == p[1..] + "_" + q;
      DivSuffixOfCompoundName(p[1..], q);
    }
  }

  /** The containers of the four fields are `.div_street`, `.div_zip`, `.div_city` and `.div_country`. */
  lemma DivSuffixOfAllFields()
    ensures DivSuffix("street") == "street" && DivSuffix("zip") == "zip"
    ensures DivSuffix("city") == "city" && DivSuffix("country_name") == "country"
  {
    assert "country_name" == "country" + "_" + "name";
    DivSuffixOfCompoundName("country", "name");
  }

  /** Each of street, zip, city and country is visible exactly when the country lists it. */
  lemma ToggleAllFields(shown: map<string, bool>, listed: seq<string>)
    ensures ToggleAll(shown, AllFields, listed) ==
      shown["street" := "street" in listed]["zip" := "zip" in listed]
           ["city" := "city" in listed]["country" := "country_name" in listed]
  {
    DivSuffixOfAllFields();
    var fs := AllFields;
    assert fs[..3] == ["street", "zip", "city"];
    assert fs[..3][..2] == ["street", "zip"];
    assert fs[..3][..2][..1] == ["street"];
    assert fs[..3][..2][..1][..0] == [];
    var m0 := ToggleAll(shown, [], listed);
    assert m0 == shown;
    var m1 := ToggleAll(shown, ["street"], listed);
    assert m1 == shown["street" := "street" in listed];
    var m2 := ToggleAll(shown, ["street", "zip"], listed);
    assert m2 == m1["zip" := "zip" in listed];
    var m3 := ToggleAll(shown, ["street", "zip", "city"], listed);
    assert m3 == m2["city" := "city" in listed];
  }

  /** The parts of the address form that a change of country rewrites. */
  class AddressForm {
    var stateOptions: seq<StateOption>
    var stateValue: Option<int>        // the drop-down's value; None is ""
    var stateShown: bool
    var stateInit: int                 // `data("init")`; 0 once the list was filled here
    var cityBeforeZip: bool
    var shown: map<string, bool>       // visibility of `.div_street`, `.div_zip`, ...

    constructor (options: seq<StateOption>, value: Option<int>, init: int)
      ensures stateOptions == options && stateValue == value && stateInit == init
      ensures stateShown && !cityBeforeZip && shown == map[]
    {
      stateOptions, stateValue, stateInit := options, value, init;
      stateShown, cityBeforeZip, shown := true, false, map[];
    }

    /**
     * A change of the country drop-down to `countryId`; `info` is the server's
     * answer when the country is asked about.
     */
    method ChangeCountry(countryId: string, info: CountryInfo) returns (asked: bool)
      modifies this
      ensures asked <==> countryId != ""
      ensures !asked ==> unchanged(this)
      ensures asked ==> stateInit == 0
      // the state list: rebuilt in the server's order and shown, or cleared and hidden
      ensures asked && (old(stateInit) == 0 || |old(stateOptions)| == 1) && info.states != [] ==>
        && stateOptions == OptionsOf(info.states)
        && stateValue == Some(info.states[0].id)
        && stateShown
      ensures asked && (old(stateInit) == 0 || |old(stateOptions)| == 1) && info.states == [] ==>
        stateOptions == old(stateOptions) && stateValue == None && !stateShown
      ensures asked && !(old(stateInit) == 0 || |old(stateOptions)| == 1) ==>
        stateOptions == old(stateOptions) && stateValue == old(stateValue) && stateShown == old(stateShown)
      // the field layout follows the country's field list, when the answer has one
      ensures asked && info.fields.Some? ==>
        && cityBeforeZip == CityBeforeZip(info.fields.value)
        && shown == old(shown)["street" := "street" in info.fields.value]
                              ["zip" := "zip" in info.fields.value]
                              ["city" := "city" in info.fields.value]
                              ["country" := "country_name" in info.fields.value]
      ensures asked && info.fields.None? ==> cityBeforeZip == old(cityBeforeZip) && shown == old(shown)
    {
      if countryId == "" {
        return false;
      }
      asked := true;
      FillStates(info.states);
      if info.fields.Some? {
        LayOutFields(info.fields.value);
      }
    }

    /**
     * The state list is rebuilt only when it was filled here before (`init`
     * 0) or holds a single option, so the list the server rendered into the
     * page is kept at first load.
     */
    method FillStates(states: seq<StateRow>)
      modifies this`stateOptions, this`stateValue, this`stateShown, this`stateInit
      ensures stateInit == 0
      ensures (old(stateInit) == 0 || |old(stateOptions)| == 1) && states != [] ==>
        stateOptions == OptionsOf(states) && stateValue == Some(states[0].id) && stateShown
      ensures (old(stateInit) == 0 || |old(stateOptions)| == 1) && states == [] ==>
        stateOptions == old(stateOptions) && stateValue == None && !stateShown
      ensures !(old(stateInit) == 0 || |old(stateOptions)| == 1) ==>
        stateOptions == old(stateOptions) && stateValue == old(stateValue) && stateShown == old(stateShown)
    {
      if stateInit == 0 || |stateOptions| == 1 {
        if |states| > 0 {
          stateOptions := [];
          var i := 0;
          while i < |states|
            invariant 0 <= i <= |states|
            invariant stateOptions == OptionsOf(states[..i])
          {
            stateOptions := stateOptions + [OptionOf(states[i])];
            i := i + 1;
          }
          assert states[..i] == states;
          stateValue := Some(stateOptions[0].value);
          stateShown := true;
        } else {
          stateValue := None;
          stateShown := false;
        }
      }
      stateInit := 0;
    }

    /** Orders zip and city and shows each optional field the country lists. */
    method LayOutFields(listed: seq<string>)
      modifies this`cityBeforeZip, this`shown
      ensures cityBeforeZip == CityBeforeZip(listed)
      ensures shown == old(shown)["street" := "street" in listed]["zip" := "zip" in listed]
                                 ["city" := "city" in listed]["country" := "country_name" in listed]
    {
      cityBeforeZip := IndexOf(listed, "zip") > IndexOf(listed, "city");
      ToggleAllFields(shown, listed);
      ToggleFields(AllFields, listed);
    }

    /** Shows or hides the container of each of `fields`, in turn. */
    method ToggleFields(fields: seq<string>, listed: seq<string>)
      modifies this`shown
      ensures shown == ToggleAll(old(shown), fields, listed)
    {
      var i := 0;
      while i < |fields|
        invariant 0 <= i <= |fields|
        invariant shown == ToggleAll(old(shown), fields[..i], listed)
      {
        var field := fields[i];
        shown := shown[DivSuffix(field) := field in listed];
        assert fields[..i + 1][..i] == fields[..i];
        i := i + 1;
      }
      assert fields[..i] == fields;
    }
  }

}
