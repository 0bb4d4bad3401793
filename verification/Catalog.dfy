/** The seventeen profile keys every snapshot carries. */
module Catalog {
  import opened Octets

  const ROOT_V1: Octets := [0x4E, 0x49, 0x4E, 0x4C, 0x49, 0x4C, 0x00, 0x01]
  const KEY_CAP: nat := 255
  const VALUE_CAP: nat := 4096

  predicate IsId(id: nat) {
    1 <= id <= 17
  }

  function AllIds(): set<nat> {
    set id: nat | id < 18 && IsId(id)
  }

  function CatalogKey(id: nat): Octets
    requires IsId(id)
  {
    if id <= 2 then ROOT_V1 + [id]
    else if id <= 6 then ROOT_V1 + [3, id - 2]
    else ROOT_V1 + [4, id - 6]
  }

  function CatalogId(key: Octets): Option<nat> {
    if |key| == 9 && key[..8] == ROOT_V1 && key[8] == 1 then Some(1)
    else if |key| == 9 && key[..8] == ROOT_V1 && key[8] == 2 then Some(2)
    else if |key| == 10 && key[..8] == ROOT_V1 && key[8] == 3 && 1 <= key[9] <= 4 then Some(2 + key[9])
    else if |key| == 10 && key[..8] == ROOT_V1 && key[8] == 4 && 1 <= key[9] <= 11 then Some(6 + key[9])
    else None
  }

  /** The largest value a profile get accepts. */
  function Capacity(id: nat): nat {
    if id == 1 then 183 else if id == 2 then 84 else if id <= 6 then 32 else 68
  }

  lemma CatalogIdOfKey(id: nat)
    requires IsId(id)
    ensures CatalogId(CatalogKey(id)) == Some(id)
  {
    assert CatalogKey(id)[..8] == ROOT_V1;
  }

  /** Each profile identity is named by one key only. */
  lemma CatalogKeyOfId(key: Octets)
    requires CatalogId(key).Some?
    ensures IsId(CatalogId(key).value)
    ensures CatalogKey(CatalogId(key).value) == key
  {
    assert key == key[..8] + key[8..];
  }
}
