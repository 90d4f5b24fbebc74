/**
  Which messages of a fetched batch are dispatched (`_dispatch_batch` in
  src/core/mail_proxy/smtp/sender.py): the batch is grouped by account, in a dictionary that
  remembers the order of first appearance, and each account sends a slice of its group.
 */
module BatchSelection {
  import opened Sequences

  /** What rows are grouped by: the account they are sent through, or the tenant they are reported to. */
  datatype Owner = Owner(id: string)

  /** A fetched row: its key, and its owner; an account is "default" when the row names none. */
  datatype Row = Row(pk: nat, owner: Owner)

  /** The rows of one account, in batch order. */
  function Group(batch: seq<Row>, account: Owner): seq<Row> {
    if batch == [] then []
    else
      var last := batch[|batch| - 1];
      Group(batch[..|batch| - 1], account) + (if last.owner == account then [last] else [])
  }

  /** The accounts of a batch, in order of first appearance. */
  function Owners(batch: seq<Row>): seq<Owner> {
    if batch == [] then []
    else
      var before := Owners(batch[..|batch| - 1]);
      var a := batch[|batch| - 1].owner;
      if a in before then before else before + [a]
  }

  /** The slice `rows[:n]`; a negative bound counts from the end. */
  function Slice(rows: seq<Row>, n: int): (r: seq<Row>)
    ensures r <= rows
  {
    if n >= |rows| then rows
    else if n >= 0 then rows[..n]
    else if |rows| + n > 0 then rows[..|rows| + n]
    else []
  }

  function SelectedFrom(batch: seq<Row>, size: Owner -> int, accounts: seq<Owner>): seq<Row> {
    if accounts == [] then []
    else
      var a := accounts[|accounts| - 1];
      SelectedFrom(batch, size, accounts[..|accounts| - 1]) + Slice(Group(batch, a), size(a))
  }

  /** What is dispatched, given the batch size of each account. */
  function Selected(batch: seq<Row>, size: Owner -> int): seq<Row> {
    SelectedFrom(batch, size, Owners(batch))
  }

  /** `messages_by_account`, an insertion-ordered dictionary of lists. */
  method GroupByAccount(batch: seq<Row>) returns (order: seq<Owner>, groups: map<Owner, seq<Row>>)
    ensures order == Owners(batch)
    ensures forall a :: a in groups <==> a in order
    ensures forall a :: a in groups ==> groups[a] == Group(batch, a)
  {
    order, groups := [], map[];
    for i := 0 to |batch|
      invariant order == Owners(batch[..i])
      invariant forall a :: a in groups <==> a in order
      invariant forall a :: a in groups ==> groups[a] == Group(batch[..i], a)
    {
      var a := batch[i].owner;
      ghost var before := groups;
      if a in groups {
        groups := groups[a := groups[a] + [batch[i]]];
      } else {
        order := order + [a];
        groups := groups[a := [batch[i]]];
      }
      OwnersSpec(batch[..i]);
      TakeOneMore(batch, i);
      forall b | b in groups
        ensures groups[b] == Group(batch[..i + 1], b)
      {
        GroupOneMore(batch, i, b);
        assert b != a ==> b in before && groups[b] == before[b];
      }
    }
    assert batch[..|batch|] == batch;
  }

  lemma TakeOneMore(batch: seq<Row>, i: nat)
    requires i < |batch|
    ensures Owners(batch[..i + 1])
         == if batch[i].owner in Owners(batch[..i]) then Owners(batch[..i])
            else Owners(batch[..i]) + [batch[i].owner]
  {
    assert batch[..i + 1][..i] == batch[..i];
  }

  lemma GroupOneMore(batch: seq<Row>, i: nat, account: Owner)
    requires i < |batch|
    ensures Group(batch[..i + 1], account)
         == Group(batch[..i], account) + (if batch[i].owner == account then [batch[i]] else [])
  {
    assert batch[..i + 1][..i] == batch[..i];
  }

  method SelectToSend(batch: seq<Row>, size: Owner -> int) returns (chosen: seq<Row>)
    ensures chosen == Selected(batch, size)
  {
    var order, groups := GroupByAccount(batch);
    chosen := [];
    for k := 0 to |order|
      invariant chosen == SelectedFrom(batch, size, order[..k])
    {
      assert order[..k + 1][..k] == order[..k];
      assert order[k] in order;
      chosen := chosen + Slice(groups[order[k]], size(order[k]));
    }
    assert order[..|order|] == order;
  }

  // ---------------------------------------------------------------- what is selected

  lemma {:induction false} GroupAppend(front: seq<Row>, tail: seq<Row>, account: Owner)
    ensures Group(front + tail, account) == Group(front, account) + Group(tail, account)
  {
    if tail == [] {
      assert front + tail == front;
    } else {
      GroupAppend(front, tail[..|tail| - 1], account);
      assert (front + tail)[..|front + tail| - 1] == front + tail[..|tail| - 1];
    }
  }

  lemma {:induction false} GroupOfOne(rows: seq<Row>, own: Owner, account: Owner)
    requires forall i :: 0 <= i < |rows| ==> rows[i].owner == own
    ensures Group(rows, account) == if account == own then rows else []
  {
    if rows != [] {
      GroupOfOne(rows[..|rows| - 1], own, account);
    }
  }

  lemma {:induction false} GroupMembers(batch: seq<Row>, account: Owner)
    ensures forall i :: 0 <= i < |Group(batch, account)| ==>
              Group(batch, account)[i].owner == account && Group(batch, account)[i] in batch
  {
    if batch != [] {
      GroupMembers(batch[..|batch| - 1], account);
    }
  }

  lemma {:induction false} OwnersSpec(batch: seq<Row>)
    ensures Distinct(Owners(batch))
    ensures forall a :: a !in Owners(batch) ==> Group(batch, a) == []
  {
    if batch != [] {
      OwnersSpec(batch[..|batch| - 1]);
    }
  }

  lemma {:induction false} SelectedFromGroup(batch: seq<Row>, size: Owner -> int, accounts: seq<Owner>,
                                             account: Owner)
    requires Distinct(accounts)
    ensures Group(SelectedFrom(batch, size, accounts), account)
         == if account in accounts then Slice(Group(batch, account), size(account)) else []
  {
    if accounts != [] {
      var front, own := accounts[..|accounts| - 1], accounts[|accounts| - 1];
      var before, slice := SelectedFrom(batch, size, front), Slice(Group(batch, own), size(own));
      LastNotBefore(accounts, account);
      SelectedFromGroup(batch, size, front, account);
      SliceOfOne(batch, own, size(own), account);
      GroupAppend(before, slice, account);
      if account == own {
        assert Group(before, account) == [];
        assert [] + slice == slice;
      } else {
        assert Group(slice, account) == [];
        assert Group(before, account) + [] == Group(before, account);
      }
    }
  }

  lemma LastNotBefore(accounts: seq<Owner>, account: Owner)
    requires accounts != [] && Distinct(accounts)
    ensures Distinct(accounts[..|accounts| - 1])
    ensures account in accounts <==> account in accounts[..|accounts| - 1] || account == accounts[|accounts| - 1]
    ensures accounts[|accounts| - 1] !in accounts[..|accounts| - 1]
  {
    assert accounts == accounts[..|accounts| - 1] + [accounts[|accounts| - 1]];
  }

  lemma SliceOfOne(batch: seq<Row>, own: Owner, n: int, account: Owner)
    ensures Group(Slice(Group(batch, own), n), account) == if account == own then Slice(Group(batch, own), n) else []
  {
    GroupMembers(batch, own);
    GroupOfOne(Slice(Group(batch, own), n), own, account);
  }

  /** Of each account exactly the slice of its own rows is dispatched, in batch order. */
  lemma SelectedPerAccount(batch: seq<Row>, size: Owner -> int, account: Owner)
    ensures Group(Selected(batch, size), account) == Slice(Group(batch, account), size(account))
  {
    OwnersSpec(batch);
    SelectedFromGroup(batch, size, Owners(batch), account);
  }

  /**
    How many: of each account the first `size` rows of the batch, all if it has fewer, and for a
    negative size all but as many from the end.
   */
  lemma SelectedPrefix(batch: seq<Row>, size: Owner -> int, account: Owner)
    ensures var own, sent := Group(batch, account), Group(Selected(batch, size), account);
            && sent <= own
            && (size(account) >= 0 ==> |sent| == if |own| < size(account) then |own| else size(account))
            && (size(account) < 0 ==> |sent| == if |own| + size(account) > 0 then |own| + size(account) else 0)
  {
    SelectedPerAccount(batch, size, account);
  }

  /** Accounts stand in the order in which the batch first names them. */
  lemma {:induction false} FirstAppearance(batch: seq<Row>, i: nat, j: nat) returns (p: nat)
    requires i < j < |Owners(batch)|
    ensures p < |batch| && batch[p].owner == Owners(batch)[i]
    ensures forall q :: 0 <= q <= p ==> batch[q].owner != Owners(batch)[j]
  {
    var n := |batch| - 1;
    var before := Owners(batch[..n]);
    if j < |before| {
      p := FirstAppearance(batch[..n], i, j);
      assert forall q :: 0 <= q <= p ==> batch[q] == batch[..n][q];
    } else {
      OwnersSpec(batch[..n]);
      p := OwnerIndex(batch[..n], i);
      forall q | 0 <= q <= p
        ensures batch[q].owner != Owners(batch)[j]
      {
        OwnerListed(batch[..n], q);
      }
    }
  }

  lemma {:induction false} OwnerIndex(batch: seq<Row>, i: nat) returns (p: nat)
    requires i < |Owners(batch)|
    ensures p < |batch| && batch[p].owner == Owners(batch)[i]
  {
    var n := |batch| - 1;
    if i < |Owners(batch[..n])| {
      p := OwnerIndex(batch[..n], i);
    } else {
      p := n;
    }
  }

  lemma {:induction false} OwnerListed(batch: seq<Row>, q: nat)
    requires q < |batch|
    ensures batch[q].owner in Owners(batch)
  {
    var n := |batch| - 1;
    if q < n {
      OwnerListed(batch[..n], q);
      assert batch[..n][q] == batch[q];
    }
  }

  /** And so do the rows that are dispatched: account after account, in that order. */
  lemma SelectedByAccount(batch: seq<Row>, size: Owner -> int, x: nat, y: nat) returns (i: nat, j: nat)
    requires x < y < |Selected(batch, size)|
    ensures i <= j < |Owners(batch)|
    ensures Selected(batch, size)[x].owner == Owners(batch)[i] && Selected(batch, size)[y].owner == Owners(batch)[j]
  {
    i, j := SelectedFromInOrder(batch, size, Owners(batch), x, y);
  }

  lemma {:induction false} SelectedFromInOrder(batch: seq<Row>, size: Owner -> int, accounts: seq<Owner>, x: nat,
                                               y: nat)
    returns (i: nat, j: nat)
    requires x <= y < |SelectedFrom(batch, size, accounts)|
    ensures i <= j < |accounts|
    ensures SelectedFrom(batch, size, accounts)[x].owner == accounts[i]
    ensures SelectedFrom(batch, size, accounts)[y].owner == accounts[j]
  {
    var n := |accounts| - 1;
    var before, own := SelectedFrom(batch, size, accounts[..n]), Slice(Group(batch, accounts[n]), size(accounts[n]));
    GroupMembers(batch, accounts[n]);
    if y < |before| {
      i, j := SelectedFromInOrder(batch, size, accounts[..n], x, y);
    } else if x < |before| {
      i, j := SelectedFromInOrder(batch, size, accounts[..n], x, x);
      j := n;
    } else {
      i, j := n, n;
    }
  }

  lemma {:induction false} GroupKeepsOrder(batch: seq<Row>, account: Owner, i: nat, j: nat)
    returns (p: nat, q: nat)
    requires i < j < |batch| && batch[i].owner == account && batch[j].owner == account
    ensures p < q < |Group(batch, account)|
    ensures Group(batch, account)[p] == batch[i] && Group(batch, account)[q] == batch[j]
  {
    var n := |batch| - 1;
    if j == n {
      p := GroupIndex(batch[..n], account, i);
      q := |Group(batch[..n], account)|;
    } else {
      p, q := GroupKeepsOrder(batch[..n], account, i, j);
    }
  }

  lemma {:induction false} GroupIndex(batch: seq<Row>, account: Owner, i: nat) returns (p: nat)
    requires i < |batch| && batch[i].owner == account
    ensures p < |Group(batch, account)| && Group(batch, account)[p] == batch[i]
  {
    var n := |batch| - 1;
    if i == n {
      p := |Group(batch[..n], account)|;
    } else {
      p := GroupIndex(batch[..n], account, i);
    }
  }

  lemma {:induction false} GroupDistinct(batch: seq<Row>, account: Owner)
    requires Distinct(batch)
    ensures Distinct(Group(batch, account))
  {
    if batch != [] {
      var n := |batch| - 1;
      GroupDistinct(batch[..n], account);
      GroupMembers(batch[..n], account);
    }
  }

  /** A row is dispatched exactly when it is in its account's slice. */
  lemma SelectedMember(batch: seq<Row>, size: Owner -> int, row: Row)
    ensures row in Selected(batch, size) <==> row in Slice(Group(batch, row.owner), size(row.owner))
  {
    var chosen := Selected(batch, size);
    SelectedPerAccount(batch, size, row.owner);
    GroupMembers(chosen, row.owner);
    if row in chosen {
      var i :| 0 <= i < |chosen| && chosen[i] == row;
      var p := GroupIndex(chosen, row.owner, i);
      assert Group(chosen, row.owner)[p] == row;
    }
  }

  /**
    No message of an account overtakes another: if a later row of the fetched batch is
    dispatched, so is every earlier row of the same account.
   */
  lemma NoOvertaking(batch: seq<Row>, size: Owner -> int, i: nat, j: nat)
    requires Distinct(batch) && i < j < |batch| && batch[i].owner == batch[j].owner
    requires batch[j] in Selected(batch, size)
    ensures batch[i] in Selected(batch, size)
  {
    var account := batch[i].owner;
    var group, slice := Group(batch, account), Slice(Group(batch, account), size(account));
    SelectedMember(batch, size, batch[i]);
    SelectedMember(batch, size, batch[j]);
    GroupDistinct(batch, account);
    var p, q := GroupKeepsOrder(batch, account, i, j);
    var r :| 0 <= r < |slice| && slice[r] == batch[j];
    assert group[r] == group[q];
    assert slice[p] == batch[i];
  }

  /** Dispatching adds no row and repeats none. */
  lemma SelectedSubCollection(batch: seq<Row>, size: Owner -> int)
    requires Distinct(batch)
    ensures Distinct(Selected(batch, size))
    ensures forall row :: row in Selected(batch, size) ==> row in batch
  {
    OwnersSpec(batch);
    SelectedFromDistinct(batch, size, Owners(batch));
  }

  lemma {:induction false} SelectedFromDistinct(batch: seq<Row>, size: Owner -> int, accounts: seq<Owner>)
    requires Distinct(batch) && Distinct(accounts)
    ensures Distinct(SelectedFrom(batch, size, accounts))
    ensures AllOf(SelectedFrom(batch, size, accounts), batch, accounts)
  {
    if accounts != [] {
      var front, own := accounts[..|accounts| - 1], accounts[|accounts| - 1];
      SelectedFromDistinct(batch, size, front);
      GroupDistinct(batch, own);
      GroupMembers(batch, own);
      AddOwner(batch, front, own, SelectedFrom(batch, size, front), Slice(Group(batch, own), size(own)));
      assert front + [own] == accounts;
    }
  }

  /** Rows of the batch, of these accounts. */
  predicate AllOf(rows: seq<Row>, batch: seq<Row>, accounts: seq<Owner>) {
    forall i :: 0 <= i < |rows| ==> rows[i] in batch && rows[i].owner in accounts
  }

  lemma AddOwner(batch: seq<Row>, accounts: seq<Owner>, own: Owner, rows: seq<Row>, slice: seq<Row>)
    requires Distinct(accounts + [own]) && Distinct(rows) && AllOf(rows, batch, accounts)
    requires Distinct(slice) && forall i :: 0 <= i < |slice| ==> slice[i] in batch && slice[i].owner == own
    ensures Distinct(rows + slice) && AllOf(rows + slice, batch, accounts + [own])
  {
    forall i | 0 <= i < |accounts|
      ensures accounts[i] != own
    {
      assert (accounts + [own])[i] != (accounts + [own])[|accounts|];
    }
    assert own in accounts + [own];
    DistinctAppend(rows, slice);
  }
}
