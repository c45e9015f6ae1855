/**
 * `getFishImage`: the front end's fish-name to image-URL resolver. The name is
 * normalised; the table is searched first for that exact name and then for the
 * first name that contains, or is contained in, it; the tuna image is the
 * fallback.
 */
module FishImageMap {
  import opened Wrappers
  import opened JsString
  import opened FishImageTable

  /**
   * `fishName.toLowerCase().trim()`: a name without upper-case letters and
   * without white space at either end.
   */
  function Normalize(s: string): (r: string)
    ensures NoUpper(r)
    ensures r != [] ==> !IsWhitespace(r[0]) && !IsWhitespace(r[|r| - 1])
  {
    TrimKeepsNoUpper(ToLower(s));
    Trim(ToLower(s))
  }

  /**
   * The loop's test: either of the two names contains the other. A key
   * matches itself, and the empty name matches every key.
   */
  function Matches(key: string, name: string): (r: bool)
    ensures key == name ==> r
    ensures name == [] ==> r
  {
    assert key == name ==> OccursAt(name, key, 0);
    assert name == [] ==> OccursAt(key, name, 0);
    Includes(name, key) || Includes(key, name)
  }

  /** The property of the table named exactly `name`, if there is one. */
  function Lookup(entries: seq<Entry>, name: string): (r: Option<Entry>)
    ensures r.None? <==> forall i :: 0 <= i < |entries| ==> entries[i].key != name
    ensures r.Some? ==> exists i :: 0 <= i < |entries| && entries[i] == r.value && entries[i].key == name
    decreases |entries|
  {
    if entries == [] then None
    else if entries[0].key == name then Some(entries[0])
    else
      var r := Lookup(entries[1..], name);
      assert forall i :: 1 <= i < |entries| ==> entries[i] == entries[1..][i - 1];
      r
  }

  /** The first entry, in declaration order, whose key matches `name`. */
  function FirstMatch(entries: seq<Entry>, name: string): (r: Option<Entry>)
    ensures r.None? <==> forall i :: 0 <= i < |entries| ==> !Matches(entries[i].key, name)
    ensures r.Some? ==> exists i :: 0 <= i < |entries| && entries[i] == r.value
                                   && Matches(entries[i].key, name)
                                   && forall j :: 0 <= j < i ==> !Matches(entries[j].key, name)
    decreases |entries|
  {
    if entries == [] then None
    else if Matches(entries[0].key, name) then Some(entries[0])
    else
      var r := FirstMatch(entries[1..], name);
      assert forall i :: 1 <= i < |entries| ==> entries[i] == entries[1..][i - 1];
      r
  }

  /**
   * The resolver over a table: exact key, else first key matching either way,
   * else tuna. Every result is an address in the image store.
   */
  function Resolve(entries: seq<Entry>, fishName: string): (r: string)
    ensures InStore(r)
  {
    var name := Normalize(fishName);
    match Lookup(entries, name)
    case Some(entry) => entry.Url()
    case None =>
      match FirstMatch(entries, name)
      case Some(entry) => entry.Url()
      case None => DefaultUrl
  }

  /** `getFishImage`: the resolver over the table of this module; total, and always an address in the image store. */
  function GetFishImage(fishName: string): (r: string)
    ensures InStore(r)
  {
    Resolve(Entries, fishName)
  }

  // ---------------------------------------------------------------------------
  // Resolution
  // ---------------------------------------------------------------------------

  /** With distinct keys, looking up an entry's key finds that entry. */
  lemma LookupFindsEntry(entries: seq<Entry>, i: nat)
    requires DistinctKeys(entries) && i < |entries|
    ensures Lookup(entries, entries[i].key) == Some(entries[i])
  {
    var name := entries[i].key;
    var r := Lookup(entries, name);
    assert r.Some?;
    var k :| 0 <= k < |entries| && entries[k] == r.value && entries[k].key == name;
    assert k == i;
  }

  /** The first matching entry is the one `FirstMatch` returns. */
  lemma FirstMatchFindsFirst(entries: seq<Entry>, name: string, i: nat)
    requires i < |entries| && Matches(entries[i].key, name)
    requires forall j :: 0 <= j < i ==> !Matches(entries[j].key, name)
    ensures FirstMatch(entries, name) == Some(entries[i])
  {
    var r := FirstMatch(entries, name);
    assert r.Some?;
    var k :| 0 <= k < |entries| && entries[k] == r.value && Matches(entries[k].key, name)
             && forall j :: 0 <= j < k ==> !Matches(entries[j].key, name);
    assert k == i;
  }

  /** Every result is the URL of an entry of the table or the default URL. */
  lemma ResultFromTable(entries: seq<Entry>, fishName: string)
    ensures || Resolve(entries, fishName) == DefaultUrl
            || exists i :: 0 <= i < |entries| && Resolve(entries, fishName) == entries[i].Url()
  {
    var name := Normalize(fishName);
    var exact := Lookup(entries, name);
    if exact.Some? {
      var i :| 0 <= i < |entries| && entries[i] == exact.value && entries[i].key == name;
      assert Resolve(entries, fishName) == entries[i].Url();
    } else {
      var first := FirstMatch(entries, name);
      if first.Some? {
        var i :| 0 <= i < |entries| && entries[i] == first.value && Matches(entries[i].key, name)
                 && forall j :: 0 <= j < i ==> !Matches(entries[j].key, name);
        assert Resolve(entries, fishName) == entries[i].Url();
      }
    }
  }

  /** With distinct keys, a name that normalises to a key gets that key's image. */
  lemma ExactKeyWins(entries: seq<Entry>, fishName: string, i: nat)
    requires DistinctKeys(entries)
    requires i < |entries| && Normalize(fishName) == entries[i].key
    ensures Resolve(entries, fishName) == entries[i].Url()
  {
    LookupFindsEntry(entries, i);
  }

  /**
   * A name that is no key gets the image of the first entry, in table order,
   * whose key contains the name or is contained in it.
   */
  lemma FirstContainmentWins(entries: seq<Entry>, fishName: string, i: nat)
    requires forall j :: 0 <= j < |entries| ==> entries[j].key != Normalize(fishName)
    requires i < |entries| && Matches(entries[i].key, Normalize(fishName))
    requires forall j :: 0 <= j < i ==> !Matches(entries[j].key, Normalize(fishName))
    ensures Resolve(entries, fishName) == entries[i].Url()
  {
    var name := Normalize(fishName);
    assert Lookup(entries, name).None?;
    FirstMatchFindsFirst(entries, name, i);
  }

  /** A name that neither contains nor is contained in any key gets the tuna image. */
  lemma NoMatchIsTuna(entries: seq<Entry>, fishName: string)
    requires forall j :: 0 <= j < |entries| ==> !Matches(entries[j].key, Normalize(fishName))
    ensures Resolve(entries, fishName) == DefaultUrl
  {
    var name := Normalize(fishName);
    assert forall j :: 0 <= j < |entries| ==> entries[j].key != name;
  }

  /** The three cases above, for the table of this module. */
  lemma GetFishImageResolution(fishName: string)
    ensures var name := Normalize(fishName);
            && (|| GetFishImage(fishName) == DefaultUrl
                || exists i :: 0 <= i < |Entries| && GetFishImage(fishName) == Entries[i].Url())
            && (forall i :: 0 <= i < |Entries| && Entries[i].key == name ==>
                  GetFishImage(fishName) == Entries[i].Url())
            && ((forall j :: 0 <= j < |Entries| ==> Entries[j].key != name) ==>
                  forall i :: 0 <= i < |Entries| && Matches(Entries[i].key, name)
                              && (forall j :: 0 <= j < i ==> !Matches(Entries[j].key, name)) ==>
                    GetFishImage(fishName) == Entries[i].Url())
            && ((forall j :: 0 <= j < |Entries| ==> !Matches(Entries[j].key, name)) ==>
                  GetFishImage(fishName) == DefaultUrl)
  {
    var name := Normalize(fishName);
    ResultFromTable(Entries, fishName);
    KeysDistinct();
    forall i | 0 <= i < |Entries| && Entries[i].key == name
      ensures GetFishImage(fishName) == Entries[i].Url()
    {
      ExactKeyWins(Entries, fishName, i);
    }
    if forall j :: 0 <= j < |Entries| ==> Entries[j].key != name {
      forall i | 0 <= i < |Entries| && Matches(Entries[i].key, name)
                 && (forall j :: 0 <= j < i ==> !Matches(Entries[j].key, name))
        ensures GetFishImage(fishName) == Entries[i].Url()
      {
        FirstContainmentWins(Entries, fishName, i);
      }
    }
    if forall j :: 0 <= j < |Entries| ==> !Matches(Entries[j].key, name) {
      NoMatchIsTuna(Entries, fishName);
    }
  }

  // ---------------------------------------------------------------------------
  // Normalisation
  // ---------------------------------------------------------------------------

  /** A trimmed lower-cased string is lower-cased. */
  lemma ToLowerOfTrimmed(s: string)
    ensures ToLower(Trim(ToLower(s))) == Trim(ToLower(s))
  {
    TrimKeepsNoUpper(ToLower(s));
    NoUpperUnchanged(Trim(ToLower(s)));
  }

  /** Normalising twice is normalising once. */
  lemma NormalizeIdempotent(s: string)
    ensures Normalize(Normalize(s)) == Normalize(s)
  {
    ToLowerOfTrimmed(s);
    TrimIdempotent(ToLower(s));
  }

  /** A name that is its own normal form: no ASCII upper case, no white space at either end. */
  lemma NormalizeKeeps(s: string)
    requires NoUpper(s)
    requires s != [] ==> !IsWhitespace(s[0]) && !IsWhitespace(s[|s| - 1])
    ensures Normalize(s) == s
  {
    NoUpperUnchanged(s);
    TrimKeeps(s);
  }

  /** `getFishImage` ignores white space around the name. */
  lemma PaddingIgnored(entries: seq<Entry>, fishName: string, lead: string, trail: string)
    requires AllWhitespace(lead) && AllWhitespace(trail)
    ensures Resolve(entries, lead + fishName + trail) == Resolve(entries, fishName)
  {
    ToLowerAppend(lead + fishName, trail);
    ToLowerAppend(lead, fishName);
    ToLowerKeepsWhitespace(lead);
    ToLowerKeepsWhitespace(trail);
    TrimIgnoresPadding(lead, ToLower(fishName), trail);
  }

  /** `getFishImage` ignores the case of ASCII letters. */
  lemma CaseIgnored(entries: seq<Entry>, a: string, b: string)
    requires |a| == |b| && forall i :: 0 <= i < |a| ==> ToLowerChar(a[i]) == ToLowerChar(b[i])
    ensures Resolve(entries, a) == Resolve(entries, b)
  {
    assert ToLower(a) == ToLower(b);
  }

  /** An already normalised name resolves the same as the original. */
  lemma NormalizedNameResolvesAlike(entries: seq<Entry>, fishName: string)
    ensures Resolve(entries, Normalize(fishName)) == Resolve(entries, fishName)
  {
    NormalizeIdempotent(fishName);
    SameNormalFormResolvesAlike(entries, Normalize(fishName), fishName);
  }

  /** The resolver reads the name only through its normal form. */
  lemma SameNormalFormResolvesAlike(entries: seq<Entry>, a: string, b: string)
    requires Normalize(a) == Normalize(b)
    ensures Resolve(entries, a) == Resolve(entries, b)
  {
  }

  // ---------------------------------------------------------------------------
  // Examples
  // ---------------------------------------------------------------------------

  /** "Yellowfin Tuna" normalises to "yellowfin tuna". */
  lemma YellowfinNormalized(fishName: string)
    requires fishName == "Yellowfin Tuna"
    ensures Normalize(fishName) == "yellowfin tuna"
  {
    YellowfinLower(fishName);
    YellowfinTrimmed(ToLower(fishName));
  }

  lemma YellowfinLower(fishName: string)
    requires fishName == "Yellowfin Tuna"
    ensures ToLower(fishName) == "yellowfin tuna"
  {
  }

  lemma YellowfinTrimmed(name: string)
    requires name == "yellowfin tuna"
    ensures Trim(name) == name
  {
    TrimKeeps(name);
  }

  /** Case does not matter: "Yellowfin Tuna" is the table's "yellowfin tuna". */
  lemma YellowfinTuna(fishName: string)
    requires fishName == "Yellowfin Tuna"
    ensures GetFishImage(fishName) == Image("yfintuna.jpg")
  {
    YellowfinNormalized(fishName);
    KeysDistinct();
    YellowfinEntry();
    ExactKeyWins(Entries, fishName, 2);
  }

  /**
   * A name that is no key of the table and contains "tuna" at position `k`
   * gets the tuna image.
   */
  lemma FallsToTuna(fishName: string, k: nat)
    requires forall j :: 0 <= j < |Entries| ==> Entries[j].key != Normalize(fishName)
    requires OccursAt(Normalize(fishName), "tuna", k)
    ensures GetFishImage(fishName) == Image("tuna.jpg")
  {
    TunaEntry();
    FirstContainmentWins(Entries, fishName, 0);
  }

  /** "yellowfin tuna steak" is its own normal form. */
  lemma SteakNormalized(fishName: string)
    requires fishName == "yellowfin tuna steak"
    ensures Normalize(fishName) == fishName
  {
    NormalizeKeeps(fishName);
  }

  /** A name longer than every key of the table is no key of it. */
  lemma LongNameIsNoKey(name: string)
    requires |name| > 17
    ensures forall j :: 0 <= j < |Entries| ==> Entries[j].key != name
  {
    NamesShort();
  }

  /** A name containing a key that is not itself a key falls to the first containing entry, "tuna". */
  lemma YellowfinTunaSteak(fishName: string)
    requires fishName == "yellowfin tuna steak"
    ensures GetFishImage(fishName) == Image("tuna.jpg")
  {
    SteakNormalized(fishName);
    SteakHasTuna(fishName);
    LongTunaName(fishName, 10);
  }

  /** "yellowfin tuna steak" is longer than any key and holds "tuna" at position 10. */
  lemma SteakHasTuna(fishName: string)
    requires fishName == "yellowfin tuna steak"
    ensures |fishName| > 17 && OccursAt(fishName, "tuna", 10)
  {
  }

  /** A name whose normal form is longer than every key and holds "tuna" gets the tuna image. */
  lemma LongTunaName(fishName: string, k: nat)
    requires |Normalize(fishName)| > 17
    requires OccursAt(Normalize(fishName), "tuna", k)
    ensures GetFishImage(fishName) == Image("tuna.jpg")
  {
    LongNameIsNoKey(Normalize(fishName));
    FallsToTuna(fishName, k);
  }

  /** A blank name is contained in every key, so it gets the first entry's image. */
  lemma BlankName(fishName: string)
    requires AllWhitespace(fishName)
    ensures GetFishImage(fishName) == Image("tuna.jpg")
  {
    ToLowerKeepsWhitespace(fishName);
    TrimStartOfWhitespace(fishName);
    assert Normalize(fishName) == [];
    NamesShort();
    TunaEntry();
    assert OccursAt("tuna", [], 0);
    FirstContainmentWins(Entries, fishName, 0);
  }
}
