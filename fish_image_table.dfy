/**
 * The table of the front end's fish-image map: each property is a fish name,
 * in lower case, and the image shown for it, in declaration order.
 */
module FishImageTable {

  /** The image store, `BASE_URL`. */
  const BaseUrl: string := "https://fishclientstorage.blob.core.windows.net/fish-images"

  /** An address in the image store: `BASE_URL`, a slash, then a file name. */
  predicate InStore(url: string) {
    |url| > |BaseUrl| && url[..|BaseUrl| + 1] == BaseUrl + "/"
  }

  /** The address of an image file in the image store; the file name can be read back from it. */
  function Image(file: string): (r: string)
    ensures InStore(r) && r[|BaseUrl| + 1..] == file
  {
    var r := BaseUrl + "/" + file;
    assert r[..|BaseUrl| + 1] == BaseUrl + "/";
    r
  }

  /** One property of the table: a lower-case fish name and the image file shown for it. */
  datatype Entry = Entry(key: string, file: string) {
    function Url(): string { Image(file) }
  }

  /** Tuna varieties. */
  const TunaVarieties: seq<Entry> := [
    Entry("tuna", "tuna.jpg"),
    Entry("bluefin tuna", "tuna.jpg"),
    Entry("yellowfin tuna", "yfintuna.jpg"),
    Entry("albacore tuna", "tuna.jpg"),
    Entry("skipjack tuna", "tuna.jpg"),
    Entry("bigeye tuna", "tuna.jpg")
  ]

  /** Salmon varieties. */
  const SalmonVarieties: seq<Entry> := [
    Entry("salmon", "salmon.jpg"),
    Entry("atlantic salmon", "salmon.jpg"),
    Entry("pacific salmon", "salmon.jpg"),
    Entry("king salmon", "salmon.jpg"),
    Entry("sockeye salmon", "salmon.jpg")
  ]

  /** Mackerel varieties. */
  const MackerelVarieties: seq<Entry> := [
    Entry("mackerel", "mackerel.jpg"),
    Entry("king mackerel", "mackerel.jpg"),
    Entry("spanish mackerel", "mackerel.jpg"),
    Entry("atlantic mackerel", "mackerel.jpg")
  ]

  /** Billfish. */
  const Billfish: seq<Entry> := [
    Entry("swordfish", "sword.jpg"),
    Entry("marlin", "marlin.jpg"),
    Entry("sailfish", "sailfish.jpg")
  ]

  /** Reef and coastal fish. */
  const ReefAndCoastalFish: seq<Entry> := [
    Entry("mahi mahi", "mahi.jpg"),
    Entry("halibut", "halibut.jpg"),
    Entry("pacific halibut", "halibut.jpg"),
    Entry("grouper", "grouper.jpg"),
    Entry("groupers", "grouper.jpg"),
    Entry("snapper", "snapper.jpg"),
    Entry("anchovy", "anchovies.jpg"),
    Entry("anchovies", "anchovies.jpg"),
    Entry("wrasse", "wrasse.jpg"),
    Entry("humphead wrasse", "wrasse.jpg"),
    Entry("trevally", "trevally.jpg"),
    Entry("giant trevally", "trevally.jpg"),
    Entry("tarpon", "tarpon.jpg"),
    Entry("flying fish", "flyingfish.jpg"),
    Entry("pompano", "pompano.jpg"),
    Entry("sturgeon", "sturgeon.jpg")
  ]

  /** The table, group after group in declaration order (the iteration order of `Object.entries`). */
  const Entries: seq<Entry> :=
    TunaVarieties + SalmonVarieties + MackerelVarieties + Billfish + ReefAndCoastalFish

  /** The image shown when nothing matches. */
  const DefaultUrl: string := Image("tuna.jpg")

  // ---------------------------------------------------------------------------
  // Facts about the table
  // ---------------------------------------------------------------------------

  /** No two entries share a key. */
  predicate DistinctKeys(entries: seq<Entry>) {
    forall i, j :: 0 <= i < j < |entries| ==> entries[i].key != entries[j].key
  }

  /** Every entry at a position in `lo..hi` has a key no later entry has. */
  predicate DistinctFrom(entries: seq<Entry>, lo: nat, hi: nat) {
    forall i, j :: lo <= i < hi && i < j < |entries| ==> entries[i].key != entries[j].key
  }

  /**
   * No two properties of the table share a name, so a name selects one entry.
   * The 561 comparisons are split by ranges of first positions, each range a
   * lemma of its own, so that no single proof compares every pair.
   */
  lemma KeysDistinct()
    ensures DistinctKeys(Entries)
  {
    KeysDistinctFrom0();
    KeysDistinctFrom2();
    KeysDistinctFrom4();
    KeysDistinctFrom6();
    KeysDistinctFrom8();
    KeysDistinctFrom11();
    KeysDistinctFrom15();
    KeysDistinctFrom18();
    KeysDistinctFrom26();
  }

  // The table's keys are distinct, checked a few positions at a time.

  lemma KeysDistinctFrom0()
    ensures DistinctFrom(Entries, 0, 2)
  {
  }

  lemma KeysDistinctFrom2()
    ensures DistinctFrom(Entries, 2, 4)
  {
  }

  lemma KeysDistinctFrom4()
    ensures DistinctFrom(Entries, 4, 6)
  {
  }

  lemma KeysDistinctFrom6()
    ensures DistinctFrom(Entries, 6, 8)
  {
  }

  lemma KeysDistinctFrom8()
    ensures DistinctFrom(Entries, 8, 11)
  {
  }

  lemma KeysDistinctFrom11()
    ensures DistinctFrom(Entries, 11, 15)
  {
  }

  lemma KeysDistinctFrom15()
    ensures DistinctFrom(Entries, 15, 18)
  {
  }

  lemma KeysDistinctFrom18()
    ensures DistinctFrom(Entries, 18, 26)
  {
  }

  lemma KeysDistinctFrom26()
    ensures DistinctFrom(Entries, 26, 34)
  {
  }

  /** Every name of the table has between 1 and 17 characters. */
  lemma NamesShort()
    ensures forall j :: 0 <= j < |Entries| ==> 0 < |Entries[j].key| <= 17
  {
  }

  /** The table's first entry. */
  lemma TunaEntry()
    ensures Entries[0] == Entry("tuna", "tuna.jpg")
  {
  }

  /** The table's third entry. */
  lemma YellowfinEntry()
    ensures Entries[2] == Entry("yellowfin tuna", "yfintuna.jpg")
  {
  }
}
