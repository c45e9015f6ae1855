/**
 * The market-species inventory: the rows linking a fish market to a species it
 * sells, next to the keys of the existing markets and species. Adding and
 * removing a link each commit at once.
 */
module FishMarketRepository {
  import opened Wrappers

  /** One row of the inventory table. */
  datatype InventoryItem = InventoryItem(fishMarketId: int, speciesId: int)

  /** A market as read with its inventory: its key and the species it sells, in table order. */
  datatype MarketView = MarketView(id: int, speciesIds: seq<int>)

  /** The commit failed in the database; the exception is passed on to the caller. */
  datatype Error = SaveFailed

  /** No (market, species) pair appears twice. */
  ghost predicate NoDuplicatePairs(inventory: seq<InventoryItem>) {
    forall i, j :: 0 <= i < j < |inventory| ==> inventory[i] != inventory[j]
  }

  /** Every row links an existing market to an existing species. */
  ghost predicate LinksExist(inventory: seq<InventoryItem>, markets: set<int>, species: set<int>) {
    forall i :: 0 <= i < |inventory| ==>
      inventory[i].fishMarketId in markets && inventory[i].speciesId in species
  }

  /** The species of the inventory rows of market `marketId`, in table order. */
  function SpeciesOf(inventory: seq<InventoryItem>, marketId: int): (r: seq<int>)
    ensures forall s :: s in r <==> InventoryItem(marketId, s) in inventory
    decreases |inventory|
  {
    if inventory == [] then []
    else
      var rest := SpeciesOf(inventory[1..], marketId);
      assert forall x :: x in inventory <==> x == inventory[0] || x in inventory[1..];
      if inventory[0].fishMarketId == marketId then [inventory[0].speciesId] + rest else rest
  }

  /** `inventory` without its first row equal to `item`. */
  function RemoveFirst(inventory: seq<InventoryItem>, item: InventoryItem): (r: seq<InventoryItem>)
    ensures item in inventory ==> multiset(r) == multiset(inventory) - multiset{item}
    ensures item !in inventory ==> r == inventory
    decreases |inventory|
  {
    if inventory == [] then []
    else
      assert inventory == [inventory[0]] + inventory[1..];
      if inventory[0] == item then inventory[1..]
      else [inventory[0]] + RemoveFirst(inventory[1..], item)
  }

  /** Removing a pair from an inventory without duplicates leaves none of it and no duplicates. */
  lemma RemoveFirstFromDistinct(inventory: seq<InventoryItem>, item: InventoryItem)
    requires NoDuplicatePairs(inventory)
    ensures item !in RemoveFirst(inventory, item)
    ensures NoDuplicatePairs(RemoveFirst(inventory, item))
  {
    var r := RemoveFirst(inventory, item);
    if item in inventory {
      var m := multiset(inventory);
      assert m[item] == 1 by {
        var k :| 0 <= k < |inventory| && inventory[k] == item;
        DistinctCounts(inventory, k);
      }
      assert multiset(r)[item] == 0;
      forall i, j | 0 <= i < j < |r| ensures r[i] != r[j] {
        if r[i] == r[j] {
          assert multiset(r)[r[i]] >= 2 by { TwoCopies(r, i, j); }
          assert m[r[i]] >= 2;
          var k :| 0 <= k < |inventory| && inventory[k] == r[i] by {
            assert r[i] in multiset(inventory);
          }
          DistinctCounts(inventory, k);
        }
      }
    }
  }

  /** In a sequence without duplicates, each element occurs once. */
  lemma {:induction false} DistinctCounts(s: seq<InventoryItem>, k: nat)
    requires NoDuplicatePairs(s) && k < |s|
    ensures multiset(s)[s[k]] == 1
    decreases |s|
  {
    assert s == [s[0]] + s[1..];
    if k == 0 {
      assert s[0] !in s[1..] by {
        forall i | 0 <= i < |s[1..]| ensures s[1..][i] != s[0] { assert s[1..][i] == s[i + 1]; }
      }
    } else {
      assert NoDuplicatePairs(s[1..]) by {
        forall i, j | 0 <= i < j < |s[1..]| ensures s[1..][i] != s[1..][j] {
          assert s[1..][i] == s[i + 1] && s[1..][j] == s[j + 1];
        }
      }
      assert s[1..][k - 1] == s[k];
      DistinctCounts(s[1..], k - 1);
    }
  }

  /** Two positions holding the same element make it occur at least twice. */
  lemma TwoCopies(s: seq<InventoryItem>, i: nat, j: nat)
    requires i < j < |s| && s[i] == s[j]
    ensures multiset(s)[s[i]] >= 2
  {
    assert s == s[..i] + [s[i]] + s[i + 1..j] + [s[j]] + s[j + 1..];
  }

  /** Appending a pair that is not yet present keeps the inventory free of duplicates. */
  lemma AppendKeepsDistinct(inventory: seq<InventoryItem>, item: InventoryItem)
    requires NoDuplicatePairs(inventory) && item !in inventory
    ensures NoDuplicatePairs(inventory + [item])
  {
    var r := inventory + [item];
    forall i, j | 0 <= i < j < |r| ensures r[i] != r[j] {
      if j == |inventory| {
        assert r[i] == inventory[i];
      } else {
        assert r[i] == inventory[i] && r[j] == inventory[j];
      }
    }
  }

  /** Adding a pair that was not present and then removing it restores the inventory exactly. */
  lemma {:induction false} AddThenRemoveRestores(inventory: seq<InventoryItem>, item: InventoryItem)
    requires item !in inventory
    ensures RemoveFirst(inventory + [item], item) == inventory
    decreases |inventory|
  {
    if inventory == [] {
      assert [] + [item] == [item];
    } else {
      assert (inventory + [item])[1..] == inventory[1..] + [item];
      assert inventory[0] != item;
      AddThenRemoveRestores(inventory[1..], item);
      assert [inventory[0]] + inventory[1..] == inventory;
    }
  }

  class FishMarketRepository {
    /** The keys of the fish markets. */
    var marketIds: set<int>
    /** The keys of the species. */
    var speciesIds: set<int>
    /** The committed inventory table. */
    var inventory: seq<InventoryItem>

    ghost predicate Valid()
      reads this
    {
      NoDuplicatePairs(inventory) && LinksExist(inventory, marketIds, speciesIds)
    }

    constructor (marketIds: set<int>, speciesIds: set<int>, inventory: seq<InventoryItem>)
      requires NoDuplicatePairs(inventory) && LinksExist(inventory, marketIds, speciesIds)
      ensures Valid()
      ensures this.marketIds == marketIds && this.speciesIds == speciesIds && this.inventory == inventory
    {
      this.marketIds := marketIds;
      this.speciesIds := speciesIds;
      this.inventory := inventory;
    }

    /** The market with key `id` and the species it sells, or none when there is no such market. */
    method GetById(id: int) returns (r: Option<MarketView>)
      ensures r.Some? <==> id in marketIds
      ensures r.Some? ==> r.value.id == id
      ensures r.Some? ==> forall s :: s in r.value.speciesIds <==> InventoryItem(id, s) in inventory
    {
      if id !in marketIds {
        return None;
      }
      return Some(MarketView(id, SpeciesOf(inventory, id)));
    }

    /**
     * Links species `speciesId` to market `marketId` and commits. Refuses
     * (false, nothing changed) an unknown market or species and a link that
     * exists already. `saved` is whether the database accepts the commit.
     */
    method AddSpeciesToMarket(marketId: int, speciesId: int, saved: bool) returns (r: Result<bool, Error>)
      requires Valid()
      modifies this`inventory
      ensures Valid()
      ensures var item := InventoryItem(marketId, speciesId);
              var allowed := marketId in marketIds && speciesId in speciesIds && item !in old(inventory);
              && (!allowed ==> r == Success(false) && inventory == old(inventory))
              && (allowed && saved ==> r == Success(true) && inventory == old(inventory) + [item])
              && (allowed && !saved ==> r == Failure(SaveFailed) && inventory == old(inventory))
    {
      if marketId !in marketIds || speciesId !in speciesIds {
        return Success(false);
      }
      if speciesId in SpeciesOf(inventory, marketId) {
        return Success(false);
      }
      var item := InventoryItem(marketId, speciesId);
      if !saved {
        return Failure(SaveFailed);
      }
      AppendKeepsDistinct(inventory, item);
      inventory := inventory + [item];
      return Success(true);
    }

    /**
     * Unlinks species `speciesId` from market `marketId` and commits. Refuses
     * (false, nothing changed) a link that does not exist.
     */
    method RemoveSpeciesFromMarket(marketId: int, speciesId: int, saved: bool) returns (r: Result<bool, Error>)
      requires Valid()
      modifies this`inventory
      ensures Valid()
      ensures var item := InventoryItem(marketId, speciesId);
              && (item !in old(inventory) ==> r == Success(false) && inventory == old(inventory))
              && (item in old(inventory) && saved ==>
                    r == Success(true) && inventory == RemoveFirst(old(inventory), item)
                    && item !in inventory
                    && multiset(inventory) == multiset(old(inventory)) - multiset{item})
              && (item in old(inventory) && !saved ==> r == Failure(SaveFailed) && inventory == old(inventory))
    {
      var item := InventoryItem(marketId, speciesId);
      if item !in inventory {
        return Success(false);
      }
      if !saved {
        return Failure(SaveFailed);
      }
      RemoveFirstFromDistinct(inventory, item);
      ghost var before := inventory;
      inventory := RemoveFirst(inventory, item);
      assert LinksExist(inventory, marketIds, speciesIds) by {
        forall i | 0 <= i < |inventory| ensures inventory[i] in multiset(before) {
          assert inventory[i] in multiset(inventory);
        }
      }
      return Success(true);
    }
  }

  /** A link added and then removed leaves the inventory as it was. */
  method AddThenRemove(repo: FishMarketRepository, marketId: int, speciesId: int)
    returns (added: Result<bool, Error>, removed: Result<bool, Error>)
    requires repo.Valid()
    requires marketId in repo.marketIds && speciesId in repo.speciesIds
    requires InventoryItem(marketId, speciesId) !in repo.inventory
    modifies repo
    ensures added == Success(true) && removed == Success(true)
    ensures repo.inventory == old(repo.inventory)
  {
    added := repo.AddSpeciesToMarket(marketId, speciesId, true);
    AddThenRemoveRestores(old(repo.inventory), InventoryItem(marketId, speciesId));
    removed := repo.RemoveSpeciesFromMarket(marketId, speciesId, true);
  }
}
