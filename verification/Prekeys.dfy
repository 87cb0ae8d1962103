/**
 One-time prekeys (crates/server/src/repository/prekeys.rs, domain/messaging.rs and domain/device.rs):
 a bundle fetch consumes the oldest free key of a device, an upload inserts keys it does not know.
 */
module Prekeys {
  import opened Wrappers

  type Uuid = string

  datatype KeyRef = KeyRef(device: Uuid, keyId: int)

  /** `rowId` is the BIGSERIAL id that orders consumption. */
  datatype Prekey = Prekey(rowId: nat, pubkey: string, consumed: bool)

  type Keys = map<KeyRef, Prekey>

  /** An uploaded item; `pubkey` is None when its base64 does not decode. */
  datatype UploadItem = UploadItem(keyId: int, pubkey: Option<string>)

  datatype UploadError = DeviceMismatch | InvalidPrekey

  predicate Available(keys: Keys, locked: set<KeyRef>, device: Uuid, key: KeyRef) {
    key in keys && key !in locked && key.device == device && !keys[key].consumed
  }

  /** What the consuming statement may pick: the free unlocked key with the least row id, or none if there is none. */
  ghost predicate ValidPick(keys: Keys, locked: set<KeyRef>, device: Uuid, picked: Option<KeyRef>) {
    match picked
    case None => forall key | key in keys :: !Available(keys, locked, device, key)
    case Some(best) =>
      && Available(keys, locked, device, best)
      && forall key | Available(keys, locked, device, key) :: keys[best].rowId <= keys[key].rowId
  }

  /** INSERT ... ON CONFLICT DO NOTHING for each item in turn. */
  function Uploaded(keys: Keys, nextId: nat, device: Uuid, items: seq<UploadItem>): (Keys, nat)
    requires forall i | 0 <= i < |items| :: items[i].pubkey.Some?
  {
    if items == [] then (keys, nextId)
    else
      var last := items[|items| - 1];
      var (before, id) := Uploaded(keys, nextId, device, items[..|items| - 1]);
      var key := KeyRef(device, last.keyId);
      if key in before then (before, id)
      else (before[key := Prekey(id, last.pubkey.value, false)], id + 1)
  }

  class PrekeyTable {
    var keys: Keys
    var nextId: nat

    ghost predicate Valid()
      reads this
    {
      && (forall key | key in keys :: keys[key].rowId < nextId)
      && (forall a, b | a in keys && b in keys && a != b :: keys[a].rowId != keys[b].rowId)
    }

    constructor ()
      ensures Valid() && keys == map[]
    {
      keys, nextId := map[], 0;
    }

    method InsertOneTimePrekey(device: Uuid, keyId: int, pubkey: string) returns (affected: nat)
      requires Valid()
      modifies this
      ensures Valid()
      ensures var key := KeyRef(device, keyId);
              if key in old(keys) then affected == 0 && keys == old(keys) && nextId == old(nextId)
              else affected == 1 && keys == old(keys)[key := Prekey(old(nextId), pubkey, false)] && nextId == old(nextId) + 1
    {
      var key := KeyRef(device, keyId);
      if key in keys {
        return 0;
      }
      keys := keys[key := Prekey(nextId, pubkey, false)];
      nextId := nextId + 1;
      affected := 1;
    }

    /** Rows locked by other transactions are skipped. */
    method ConsumeOneTimePrekey(device: Uuid, locked: set<KeyRef>) returns (consumed: Option<(int, string)>, ghost picked: Option<KeyRef>)
      requires Valid()
      modifies this`keys
      ensures Valid()
      ensures ValidPick(old(keys), locked, device, picked)
      ensures picked == None ==>
                forall key | key in keys && key !in locked && key.device == device :: keys[key].consumed
      ensures forall best :: picked == Some(best) ==>
                && best in old(keys) && best !in locked && best.device == device && !old(keys)[best].consumed
                && forall key | key in old(keys) && key !in locked && key.device == device && !old(keys)[key].consumed ::
                  old(keys)[best].rowId <= old(keys)[key].rowId
      ensures match picked
              case None => consumed == None && keys == old(keys)
              case Some(key) =>
                && consumed == Some((key.keyId, old(keys)[key].pubkey))
                && keys == old(keys)[key := old(keys)[key].(consumed := true)]
    {
      var best: Option<KeyRef> := None;
      var rest := keys.Keys;
      while rest != {}
        invariant rest <= keys.Keys
        invariant best.Some? ==> Available(keys, locked, device, best.value)
        invariant forall key | key in keys && key !in rest && Available(keys, locked, device, key) ::
          best.Some? && keys[best.value].rowId <= keys[key].rowId
        decreases rest
      {
        var key :| key in rest;
        rest := rest - {key};
        if key !in locked && key.device == device && !keys[key].consumed
           && (best.None? || keys[key].rowId < keys[best.value].rowId) {
          best := Some(key);
        }
      }
      picked := best;
      if best.None? {
        return None, None;
      }
      consumed := Some((best.value.keyId, keys[best.value].pubkey));
      keys := keys[best.value := keys[best.value].(consumed := true)];
    }

    /** One transaction: either every item decodes and the unknown keys are inserted, or nothing is. */
    method UploadPrekeys(authDevice: Uuid, device: Uuid, items: seq<UploadItem>) returns (result: Result<nat, UploadError>)
      requires Valid()
      modifies this
      ensures Valid()
      ensures result.Ok? <==> authDevice == device && forall i | 0 <= i < |items| :: items[i].pubkey.Some?
      ensures result.Ok? ==> (keys, nextId) == Uploaded(old(keys), old(nextId), device, items)
      ensures result.Ok? ==> result.value == nextId - old(nextId)
      ensures result.Err? ==> keys == old(keys)
    {
      if authDevice != device {
        return Err(DeviceMismatch);
      }
      var begun := keys;
      var inserted := 0;
      for i := 0 to |items|
        invariant Valid() && forall j | 0 <= j < i :: items[j].pubkey.Some?
        invariant (keys, nextId) == Uploaded(old(keys), old(nextId), device, items[..i])
        invariant inserted == nextId - old(nextId)
        invariant forall key | key in old(keys) :: key in keys && keys[key] == old(keys)[key]
      {
        assert items[..i + 1][..i] == items[..i];
        if items[i].pubkey.None? {
          keys := begun;
          return Err(InvalidPrekey);
        }
        var affected := InsertOneTimePrekey(device, items[i].keyId, items[i].pubkey.value);
        inserted := inserted + affected;
      }
      assert items[..|items|] == items;
      result := Ok(inserted);
    }
  }

  /** Known keys are untouched, consumed or not, and the row count grows by the number reported. */
  lemma {:induction false} UploadOnlyAdds(keys: Keys, nextId: nat, device: Uuid, items: seq<UploadItem>)
    requires forall i | 0 <= i < |items| :: items[i].pubkey.Some?
    ensures var (after, id) := Uploaded(keys, nextId, device, items);
            && (forall key | key in keys :: key in after && after[key] == keys[key])
            && |after| == |keys| + id - nextId
  {
    if items != [] {
      UploadOnlyAdds(keys, nextId, device, items[..|items| - 1]);
    }
  }

  lemma {:induction false} UploadHoldsEach(keys: Keys, nextId: nat, device: Uuid, items: seq<UploadItem>, i: nat)
    requires i < |items| && forall j | 0 <= j < |items| :: items[j].pubkey.Some?
    ensures KeyRef(device, items[i].keyId) in Uploaded(keys, nextId, device, items).0
  {
    var n := |items| - 1;
    if i < n {
      UploadHoldsEach(keys, nextId, device, items[..n], i);
    }
  }

  lemma {:induction false} NewKeyIsFirstSupplied(
    keys: Keys, nextId: nat, device: Uuid, items: seq<UploadItem>, key: KeyRef)
    requires forall i | 0 <= i < |items| :: items[i].pubkey.Some?
    requires key in Uploaded(keys, nextId, device, items).0 && key !in keys
    ensures var row := Uploaded(keys, nextId, device, items).0[key];
            key.device == device && !row.consumed && FirstSuppliedAs(items, key.keyId, row.pubkey)
  {
    var n := |items| - 1;
    var init := items[..n];
    var before := Uploaded(keys, nextId, device, init).0;
    if key in before {
      NewKeyIsFirstSupplied(keys, nextId, device, init, key);
      FirstSupplyStays(init, items, key.keyId, before[key].pubkey);
    } else {
      forall j | 0 <= j < n ensures items[j].keyId != key.keyId {
        UploadHoldsEach(keys, nextId, device, init, j);
        assert init[j] == items[j];
      }
      assert FirstItemOf(items, n, key.keyId);
    }
  }

  /**
   What an upload does to the table: known keys are untouched, consumed or not; each unknown key gets the
   public key of its first item; and the row count grows by the number reported.
   */
  lemma UploadKeepsKnownKeys(keys: Keys, nextId: nat, device: Uuid, items: seq<UploadItem>)
    requires forall i | 0 <= i < |items| :: items[i].pubkey.Some?
    ensures var (after, id) := Uploaded(keys, nextId, device, items);
            && (forall key | key in keys :: key in after && after[key] == keys[key])
            && (forall key | key in after && key !in keys ::
                  key.device == device && !after[key].consumed && FirstSuppliedAs(items, key.keyId, after[key].pubkey))
            && (forall i | 0 <= i < |items| :: KeyRef(device, items[i].keyId) in after)
            && |after| == |keys| + id - nextId
  {
    var after := Uploaded(keys, nextId, device, items).0;
    UploadOnlyAdds(keys, nextId, device, items);
    forall key | key in after && key !in keys
      ensures key.device == device && !after[key].consumed && FirstSuppliedAs(items, key.keyId, after[key].pubkey)
    {
      NewKeyIsFirstSupplied(keys, nextId, device, items, key);
    }
    forall i | 0 <= i < |items| ensures KeyRef(device, items[i].keyId) in after {
      UploadHoldsEach(keys, nextId, device, items, i);
    }
  }

  predicate FirstItemOf(items: seq<UploadItem>, i: nat, keyId: int)
    requires i < |items|
  {
    items[i].keyId == keyId && forall j | 0 <= j < i :: items[j].keyId != keyId
  }

  /** The first item with this key id carries this public key. */
  ghost predicate FirstSuppliedAs(items: seq<UploadItem>, keyId: int, pubkey: string) {
    exists i | 0 <= i < |items| :: FirstItemOf(items, i, keyId) && items[i].pubkey == Some(pubkey)
  }

  lemma FirstSupplyStays(init: seq<UploadItem>, items: seq<UploadItem>, keyId: int, pubkey: string)
    requires init <= items && FirstSuppliedAs(init, keyId, pubkey)
    ensures FirstSuppliedAs(items, keyId, pubkey)
  {
    var i :| 0 <= i < |init| && FirstItemOf(init, i, keyId) && init[i].pubkey == Some(pubkey);
    assert FirstItemOf(items, i, keyId);
  }
}
