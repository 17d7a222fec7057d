/** Countries and languages as the Lidl API lists them (lidl/src/structs.rs). */
module Structs {
  import opened Wrappers

  datatype Language = Language(id: string, defaultName: string, active: bool, default: bool)

  datatype Country = Country(id: string, defaultName: string, active: bool, languages: seq<Language>)

  /** `languages.iter().find(|language| language.active).cloned()` */
  function FindActive(languages: seq<Language>): (r: Option<Language>)
    ensures r.Some? <==> exists i :: 0 <= i < |languages| && languages[i].active
    ensures r.Some? ==> exists k :: 0 <= k < |languages| && languages[k] == r.value
                                 && r.value.active && forall j :: 0 <= j < k ==> !languages[j].active
  {
    if languages == [] then None
    else if languages[0].active then Some(languages[0])
    else
      var r := FindActive(languages[1..]);
      assert forall j :: 0 < j < |languages| ==> languages[j] == languages[1..][j - 1];
      r
  }

  /**
   * The country's default language: the first language flagged active, a
   * copy of that list element; `None` when no language is active.
   */
  function GetDefaultLanguage(country: Country): (r: Option<Language>)
    ensures r.Some? <==> exists i :: 0 <= i < |country.languages| && country.languages[i].active
    ensures r.Some? ==> exists k :: 0 <= k < |country.languages| && country.languages[k] == r.value
                                 && r.value.active && forall j :: 0 <= j < k ==> !country.languages[j].active
  {
    FindActive(country.languages)
  }

  /**
   * Only the `active` flags and the order of the list decide which language
   * is chosen: two lists that agree on the flags pick the same position,
   * whatever their other fields (the `default` flag among them) hold.
   */
  lemma {:induction false} ChoiceDependsOnlyOnActiveFlags(a: seq<Language>, b: seq<Language>)
    requires |a| == |b|
    requires forall i :: 0 <= i < |a| ==> a[i].active == b[i].active
    ensures FindActive(a).Some? <==> FindActive(b).Some?
    ensures FindActive(a).Some? ==> exists k :: 0 <= k < |a| && FindActive(a) == Some(a[k]) && FindActive(b) == Some(b[k])
  {
    if a != [] && !a[0].active {
      ChoiceDependsOnlyOnActiveFlags(a[1..], b[1..]);
      if FindActive(a).Some? {
        var k :| 0 <= k < |a[1..]| && FindActive(a[1..]) == Some(a[1..][k]) && FindActive(b[1..]) == Some(b[1..][k]);
        assert FindActive(a) == Some(a[k + 1]) && FindActive(b) == Some(b[k + 1]);
      }
    } else if a != [] {
      assert FindActive(a) == Some(a[0]) && FindActive(b) == Some(b[0]);
    }
  }

  /** `Display for Country`: "<id> - <default name>". */
  function Display(country: Country): (s: string)
    ensures |s| == |country.id| + 3 + |country.defaultName|
    ensures s[..|country.id|] == country.id
    ensures s[|country.id|..|country.id| + 3] == " - "
    ensures s[|country.id| + 3..] == country.defaultName
  {
    country.id + " - " + country.defaultName
  }

  lemma FirstBlankEndsId(country: Country)
    requires ' ' !in country.id
    ensures forall i :: 0 <= i < |country.id| ==> Display(country)[i] != ' '
    ensures Display(country)[|country.id|] == ' '
  {
    var s := Display(country);
    forall i | 0 <= i < |country.id| ensures s[i] != ' ' {
      assert s[i] == s[..|country.id|][i] == country.id[i];
    }
  }

  /** For ids without blanks (country codes), the display text determines both the id and the name. */
  lemma DisplayDeterminesIdAndName(a: Country, b: Country)
    requires ' ' !in a.id && ' ' !in b.id
    requires Display(a) == Display(b)
    ensures a.id == b.id && a.defaultName == b.defaultName
  {
    FirstBlankEndsId(a);
    FirstBlankEndsId(b);
    assert |a.id| == |b.id|;
  }
}
