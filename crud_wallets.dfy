/** The wallet table's store primitives: insert with defaults, edit, remove, and the currency query. */
module Wallets {
  import opened Wrappers
  import opened Store

  method AddWallet(db: Database, name: string, amount: real := 0.0, currency: string := "EUR")
    requires db.Valid()
    modifies db
    ensures db.Valid()
    ensures db.Snap() == old(db.Snap()).(wallets := Insert(old(db.wallets), Wallet(name, amount, currency)))
  {
    db.wallets := Insert(db.wallets, Wallet(name, amount, currency));
  }

  /** The row `edit_wallet` writes: each argument that is None keeps the stored field. */
  function Edited(cur: Wallet, newName: Option<string>, newAmount: Option<real>, newCurrency: Option<string>): (w: Wallet)
    ensures newName.None? ==> w.name == cur.name
    ensures newAmount.None? ==> w.amount == cur.amount
    ensures newCurrency.None? ==> w.currency == cur.currency
    ensures newName.Some? ==> w.name == newName.value
    ensures newAmount.Some? ==> w.amount == newAmount.value
    ensures newCurrency.Some? ==> w.currency == newCurrency.value
  {
    Wallet(newName.GetOr(cur.name), newAmount.GetOr(cur.amount), newCurrency.GetOr(cur.currency))
  }

  /** The table after `edit_wallet`: an unknown id changes nothing; otherwise only that row changes. */
  function EditedRows(rows: Rows<Wallet>, id: int, newName: Option<string>, newAmount: Option<real>,
                      newCurrency: Option<string>): (r: Rows<Wallet>)
    ensures Find(rows, id).None? ==> r == rows
    ensures Ids(r) == Ids(rows)
    ensures forall i :: 0 <= i < |rows| && rows[i].id != id ==> r[i] == rows[i]
    ensures Find(rows, id).Some? ==> Find(r, id) == Some(Edited(Find(rows, id).value, newName, newAmount, newCurrency))
  {
    match Find(rows, id)
    case None => rows
    case Some(cur) =>
      var w := Edited(cur, newName, newAmount, newCurrency);
      FindUpdate(rows, id, w, id);
      Update(rows, id, w)
  }

  /** An edit that supplies nothing leaves the table as it was. */
  lemma EditNothing(rows: Rows<Wallet>, id: int)
    requires ValidRows(rows)
    ensures EditedRows(rows, id, None, None, None) == rows
  {
    if Find(rows, id).Some? {
      var r := EditedRows(rows, id, None, None, None);
      assert Row(id as nat, Find(rows, id).value) in rows;
      assert |r| == |rows|;
      forall i | 0 <= i < |rows| ensures r[i] == rows[i] {
        if rows[i].id == id {
          FindAt(rows, i);
        }
      }
    }
  }

  method EditWallet(db: Database, walletId: int, newName: Option<string> := None,
                    newAmount: Option<real> := None, newCurrency: Option<string> := None)
    requires db.Valid()
    modifies db
    ensures db.Valid()
    ensures db.Snap() == old(db.Snap()).(wallets := EditedRows(old(db.wallets), walletId, newName, newAmount, newCurrency))
  {
    match Find(db.wallets, walletId)
    case None =>
    case Some(cur) =>
      UpdateKeepsValid(db.wallets, walletId, Edited(cur, newName, newAmount, newCurrency));
      db.wallets := EditedRows(db.wallets, walletId, newName, newAmount, newCurrency);
  }

  /** `remove_wallet`: only the row with that id goes; no other row changes. */
  method RemoveWallet(db: Database, walletId: int)
    requires db.Valid()
    modifies db
    ensures db.Valid()
    ensures db.Snap() == old(db.Snap()).(wallets := Delete(old(db.wallets), walletId))
  {
    DeleteKeepsValid(db.wallets, walletId);
    db.wallets := Delete(db.wallets, walletId);
  }

  /** The row filter of `get_wallets_by_currency`. */
  function HeldIn(currency: string): Wallet -> bool {
    (w: Wallet) => w.currency == currency
  }

  /** `get_wallets_by_currency`: exactly the ids of the wallets held in `currency`, in table order. */
  function WalletsByCurrency(rows: Rows<Wallet>, currency: string): (ids: seq<nat>)
    ensures forall i :: 0 <= i < |rows| ==> (rows[i].id in ids <== rows[i].data.currency == currency)
    ensures forall k :: 0 <= k < |ids| ==> HasRowWhere(rows, ids[k], HeldIn(currency))
    ensures ValidRows(rows) ==> forall a, b :: 0 <= a < b < |ids| ==> ids[a] < ids[b]
  {
    HeldInSelects(rows, currency);
    IdsWhere(rows, HeldIn(currency))
  }

  /** Both halves of `WalletsByCurrency`'s contract, stated for the filter it selects with. */
  lemma HeldInSelects(rows: Rows<Wallet>, currency: string)
    ensures forall i :: 0 <= i < |rows| ==> (rows[i].id in IdsWhere(rows, HeldIn(currency)) <== rows[i].data.currency == currency)
    ensures forall k :: 0 <= k < |IdsWhere(rows, HeldIn(currency))| ==> HasRowWhere(rows, IdsWhere(rows, HeldIn(currency))[k], HeldIn(currency))
    ensures ValidRows(rows) ==> forall a, b :: 0 <= a < b < |IdsWhere(rows, HeldIn(currency))| ==> IdsWhere(rows, HeldIn(currency))[a] < IdsWhere(rows, HeldIn(currency))[b]
  {
    var p := HeldIn(currency);
    var ids := IdsWhere(rows, p);
    forall i | 0 <= i < |rows| && rows[i].data.currency == currency ensures rows[i].id in ids {
      assert p(rows[i].data);
    }
    forall k | 0 <= k < |ids| ensures HasRowWhere(rows, ids[k], p) {
      var i := IdsWhereSound(rows, p, k);
    }
    if ValidRows(rows) {
      forall a, b | 0 <= a < b < |ids| ensures ids[a] < ids[b] {
        IdsWhereAscending(rows, p, a, b);
      }
    }
  }
}
