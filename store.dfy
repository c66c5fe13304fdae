/**
 * The admin allow-list: the `Admin` table, whose `user_id` column is
 * unique, and the helpers that read and extend it.  The table is a
 * sequence of user ids in retrieval order; the auto-increment primary
 * key is not modelled.
 */
module Store {
  import opened Wrappers

  /** The unique constraint on `user_id`: no id is stored twice. */
  predicate NoDuplicates(rows: seq<string>) {
    forall i, j :: 0 <= i < j < |rows| ==> rows[i] != rows[j]
  }

  /** `Admin.query.filter_by(user_id=u)`: the rows whose id is `u`, in table order. */
  function FilterBy(rows: seq<string>, u: string): (r: seq<string>)
    ensures forall k :: 0 <= k < |r| ==> r[k] == u
    ensures |r| > 0 <==> u in rows
  {
    if rows == [] then []
    else (if rows[0] == u then [rows[0]] else []) + FilterBy(rows[1..], u)
  }

  /** A query's `.first()`: its first row, or `None` when it has none. */
  function First(rows: seq<string>): Option<string> {
    if rows == [] then None else Some(rows[0])
  }

  /** Under the unique constraint a lookup by id finds at most one row, and exactly one for a stored id. */
  lemma {:induction false} AtMostOneRow(rows: seq<string>, u: string)
    requires NoDuplicates(rows)
    ensures |FilterBy(rows, u)| <= 1
    ensures u in rows ==> |FilterBy(rows, u)| == 1
  {
    if rows != [] {
      var tail := rows[1..];
      assert NoDuplicates(tail) by {
        forall i, j | 0 <= i < j < |tail| ensures tail[i] != tail[j] {
          assert tail[i] == rows[i + 1] && tail[j] == rows[j + 1];
        }
      }
      AtMostOneRow(tail, u);
      if rows[0] == u {
        assert u !in tail by {
          forall k | 0 <= k < |tail| ensures tail[k] != u {
            assert tail[k] == rows[k + 1];
          }
        }
      } else {
        assert u in rows ==> u in tail;
      }
    }
  }

  /** Insert-if-absent, the table change made by `add_admin` and by the startup block. */
  function Inserted(rows: seq<string>, u: string): (r: seq<string>)
    ensures u in r
    ensures forall v :: v in r <==> v in rows || v == u
    ensures rows <= r && |r| <= |rows| + 1
    ensures u in rows ==> r == rows
    ensures NoDuplicates(rows) ==> NoDuplicates(r)
  {
    if First(FilterBy(rows, u)).Some? then rows else rows + [u]
  }

  class AdminStore {
    var ids: seq<string>

    ghost predicate Valid()
      reads this
    {
      NoDuplicates(ids)
    }

    /** `db.create_all()` on a fresh database: an empty table. */
    constructor ()
      ensures Valid() && ids == []
    {
      ids := [];
    }

    /** `get_admins`: every stored id, once each. */
    function GetAdmins(): (r: seq<string>)
      reads this
      requires Valid()
      ensures NoDuplicates(r) && |r| == |ids|
      ensures forall u :: u in r <==> IsAdmin(u)
    {
      ids
    }

    /** `is_admin`: some row carries the id. */
    function IsAdmin(u: string): (b: bool)
      reads this
      ensures b <==> u in ids
    {
      First(FilterBy(ids, u)).Some?
    }

    /** `add_admin`: inserts the id unless a row already carries it. */
    method AddAdmin(u: string)
      requires Valid()
      modifies this
      ensures Valid()
      ensures ids == Inserted(old(ids), u)
      ensures IsAdmin(u) && |FilterBy(ids, u)| == 1
      ensures forall v :: IsAdmin(v) <==> old(IsAdmin(v)) || v == u
      ensures old(IsAdmin(u)) ==> ids == old(ids)
    {
      if First(FilterBy(ids, u)).None? {
        ids := ids + [u];
      }
      AtMostOneRow(ids, u);
    }

    /**
     * The startup block: seeds the configured initial admin when absent.
     * Run again on the same table (a restart) it adds nothing.
     */
    method Startup(initial: string)
      requires Valid()
      modifies this
      ensures Valid()
      ensures ids == Inserted(old(ids), initial)
      ensures IsAdmin(initial) && |FilterBy(ids, initial)| == 1
    {
      AddAdmin(initial);
    }
  }

  /** Process start on an empty database: create the table, then seed the initial admin. */
  method OpenStore(initial: string) returns (store: AdminStore)
    ensures fresh(store) && store.Valid()
    ensures store.GetAdmins() == [initial]
  {
    store := new AdminStore();
    store.Startup(initial);
  }
}
