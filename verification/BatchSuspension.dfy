/**
  Batch suspension (src/core/mail_proxy/entities/tenant/table.py).  A tenant's suspended batches
  are one nullable string, comma-joined or "*".  Three readers interpret it: the code's
  `is_batch_suspended`, the `LIKE` filter of the query that fetches ready messages, and the
  set view `Suspended` below, the meaning that suspending and activating are proved to keep.
 */
module BatchSuspension {
  import opened Options
  import opened Sequences
  import opened Text

  /** A suspended-batches column: NULL, "*", or comma-joined codes. */
  type Column = Option<string>

  function OrEmpty(c: Column): string {
    if c.Some? then c.value else ""
  }

  /** The codes of a column that is not "*". */
  function Codes(c: Column): set<string> {
    if OrEmpty(c) == "" then {} else Elements(Split(OrEmpty(c), ',')) - {""}
  }

  predicate IsBatchSuspended(c: Column, batch: Option<string>) {
    if OrEmpty(c) == "" then false
    else if c.value == "*" then true
    else if batch.None? then false
    else batch.value in Split(c.value, ',')
  }

  /** The suspension condition in the WHERE clause of `fetch_ready`: true keeps the message. */
  predicate SqlAllows(c: Column, batch: Option<string>, d: Dialect) {
    c.None?
    || (c.value != "*"
        && (batch.None? || !Like("," + c.value + ",", "%," + batch.value + ",%", d)))
  }

  /** The column after `suspend_batch`; without a batch everything is suspended. */
  function Suspend(c: Column, batch: Option<string>): Column {
    if batch.None? then Some("*")
    else if OrEmpty(c) == "*" then c
    else Some(Join(Sorted(Codes(c) + {batch.value}), ','))
  }

  /** The column after `activate_batch`; a single batch cannot be taken out of "*". */
  function Activate(c: Column, batch: Option<string>): Column {
    if batch.None? then None
    else if OrEmpty(c) == "*" then c
    else if Codes(c) - {batch.value} == {} then None
    else Some(Join(Sorted(Codes(c) - {batch.value}), ','))
  }

  predicate ActivateSucceeds(c: Column, batch: Option<string>) {
    batch.None? || OrEmpty(c) != "*"
  }

  // ---------------------------------------------------------------- the table

  class TenantsTable {
    var rows: map<string, Column>

    constructor ()
      ensures rows == map[]
    {
      rows := map[];
    }

    method SuspendBatch(tenant: string, batch: Option<string>) returns (found: bool)
      modifies this
      ensures found == (tenant in old(rows))
      ensures rows == if found then old(rows)[tenant := Suspend(old(rows)[tenant], batch)] else old(rows)
    {
      if tenant !in rows {
        return false;
      }
      found := true;
      if batch.None? {
        rows := rows[tenant := Some("*")];
      } else {
        var current := OrEmpty(rows[tenant]);
        if current == "*" {
          assert rows == rows[tenant := rows[tenant]];
          return;
        }
        var batches := if current == "" then {} else Elements(Split(current, ','));
        batches := batches - {""};
        assert batches == Codes(rows[tenant]);
        batches := batches + {batch.value};
        rows := rows[tenant := Some(Join(Sorted(batches), ','))];
      }
    }

    method ActivateBatch(tenant: string, batch: Option<string>) returns (done: bool)
      modifies this
      ensures done == (tenant in old(rows) && ActivateSucceeds(old(rows)[tenant], batch))
      ensures rows == if tenant in old(rows) then old(rows)[tenant := Activate(old(rows)[tenant], batch)] else old(rows)
    {
      if tenant !in rows {
        return false;
      }
      if batch.None? {
        rows := rows[tenant := None];
      } else {
        var current := OrEmpty(rows[tenant]);
        if current == "*" {
          return false;
        }
        var batches := if current == "" then {} else Elements(Split(current, ','));
        batches := batches - {""};
        batches := batches - {batch.value};
        rows := rows[tenant := if batches == {} then None else Some(Join(Sorted(batches), ','))];
      }
      done := true;
    }

    method GetSuspendedBatches(tenant: string) returns (batches: set<string>)
      ensures batches == if tenant in rows then Listed(rows[tenant]) else {}
    {
      if tenant !in rows {
        return {};
      }
      var suspended := OrEmpty(rows[tenant]);
      if suspended == "" {
        return {};
      }
      if suspended == "*" {
        return {"*"};
      }
      batches := Elements(Split(suspended, ','));
      batches := batches - {""};
    }
  }

  function Listed(c: Column): set<string> {
    if OrEmpty(c) == "*" then {"*"} else Codes(c)
  }

  // ---------------------------------------------------------------- two readers agree

  predicate CommaFree(code: string) {
    ',' !in code
  }

  /** The query suspends a code without wildcards when what it stands for is one of the parts. */
  lemma FilterIsMembership(list: string, code: string, d: Dialect)
    requires Fixed(code, d) && CommaFree(Instance(code, d))
    ensures Like("," + list + ",", "%," + code + ",%", d) <==> Instance(code, d) in Split(list, ',')
  {
    var p := "," + code + ",";
    FencedPattern(code, d);
    assert "%," + code + ",%" == "%" + p + "%";
    LikeContains("," + list + ",", p, d);
    assert "," + list + "," == [','] + list + [','];
    InSplitIffContained(list, ',', Instance(code, d));
  }

  lemma FencedPattern(code: string, d: Dialect)
    requires Fixed(code, d)
    ensures Fixed("," + code + ",", d) && !Dangling("," + code + ",", d)
    ensures Instance("," + code + ",", d) == [','] + Instance(code, d) + [',']
  {
    InstanceFenced(code, d);
    assert ("," + code + ",")[1..] == code + ",";
  }

  /** Codes that the query reads as the code does. */
  predicate Plain(code: string, d: Dialect) {
    code != "" && CommaFree(code) && Literal(code, d)
  }

  lemma PlainAgrees(c: Column, code: string, d: Dialect)
    requires CommaFree(code) && Literal(code, d) && (code == "" ==> c != Some(""))
    ensures SqlAllows(c, Some(code), d) <==> !IsBatchSuspended(c, Some(code))
  {
    LiteralInstance(code, d);
    if c.Some? {
      FilterIsMembership(c.value, code, d);
    }
  }

  /** A column on which the two readers part, for any code that is not plain. */
  function Parting(code: string, d: Dialect): Column {
    if code == "" then Some("") else Some("," + Instance(code, d))
  }

  lemma FencedInstanceMatches(code: string, d: Dialect, c: string)
    requires c == Instance(code, d) || c == "," + Instance(code, d)
    ensures Like("," + c + ",", "%," + code + ",%", d)
  {
    var t, pattern := Instance(code, d) + ",", "%," + code + ",%";
    LikeInstance(code, d);
    assert pattern[1..] == "," + (code + ",%") && pattern[1..][1..] == code + ",%";
    assert ("," + t)[1..] == t;
    assert Like("," + t, pattern[1..], d);
    assert Like("," + t, pattern, d);
    if c == Instance(code, d) {
      assert "," + c + "," == "," + t;
    } else {
      assert ("," + c + ",")[1..] == "," + t;
    }
  }

  lemma PartingParts(code: string, d: Dialect)
    requires !Plain(code, d)
    ensures !SqlAllows(Parting(code, d), Some(code), d) && !IsBatchSuspended(Parting(code, d), Some(code))
  {
    if code == "" {
      FencedInstanceMatches("", d, "");
    } else {
      var t := Instance(code, d);
      FencedInstanceMatches(code, d, "," + t);
      if CommaFree(code) {
        InstanceDiffersIff(code, d);
        assert Split("," + t, ',') == [""] + Split(t, ',') by {
          assert ("," + t)[1..] == t;
        }
        assert Instance(code, d) != code;
        SplitOfInstance(code, d);
      } else {
        CommaCodeNeverInList("," + t, code);
      }
    }
  }

  lemma SplitOfInstance(code: string, d: Dialect)
    requires CommaFree(code)
    ensures Split(Instance(code, d), ',') == [Instance(code, d)]
  {
    InstanceCommaFree(code, d);
    SplitWhole(Instance(code, d), ',');
  }

  lemma {:induction false} InstanceCommaFree(code: string, d: Dialect)
    requires CommaFree(code)
    ensures CommaFree(Instance(code, d))
  {
    if code != "" && !(|code| == 1 && Escape(code[0], d)) {
      InstanceCommaFree(code[if Escape(code[0], d) then 2 else 1..], d);
    }
  }

  /**
    Exactly when the query and the code agree on a batch code, whatever the column: it is nonempty
    and free of commas and wildcards, of backslashes where they escape, and of letters where LIKE
    ignores case.
   */
  lemma ReadersAgreeIff(code: string, d: Dialect)
    ensures (forall c: Column :: SqlAllows(c, Some(code), d) <==> !IsBatchSuspended(c, Some(code))) <==> Plain(code, d)
  {
    if Plain(code, d) {
      forall c: Column
        ensures SqlAllows(c, Some(code), d) <==> !IsBatchSuspended(c, Some(code))
      {
        PlainAgrees(c, code, d);
      }
    } else {
      PartingParts(code, d);
      assert !(SqlAllows(Parting(code, d), Some(code), d) <==> !IsBatchSuspended(Parting(code, d), Some(code)));
    }
  }

  /**
    Column by column: for messages without a batch and for codes free of commas and of what LIKE
    reads specially, the two readers agree but for the empty code under the empty column.
   */
  lemma SqlAgreesWithCodeIff(c: Column, batch: Option<string>, d: Dialect)
    requires batch.Some? ==> CommaFree(batch.value) && Literal(batch.value, d)
    ensures (SqlAllows(c, batch, d) <==> !IsBatchSuspended(c, batch)) <==>
              !(c == Some("") && batch == Some(""))
  {
    if batch.Some? {
      if c == Some("") && batch == Some("") {
        PartingParts("", d);
      } else {
        PlainAgrees(c, batch.value, d);
      }
    }
  }

  /** A code that contains a comma is never suspended for the code, however the query reads it. */
  lemma CommaCodeNeverInList(list: string, code: string)
    requires !CommaFree(code)
    ensures code !in Split(list, ',')
  {
    PartsSepFree(list, ',');
  }

  /** A column where the query alone suspends a code with a comma; */
  lemma CommaCodeSkippedByQueryOnly(d: Dialect)
    requires !d.foldCase
    ensures !SqlAllows(Some("a,b"), Some("a,b"), d) && !IsBatchSuspended(Some("a,b"), Some("a,b"))
  {
    CommaCodeNeverInList("a,b", "a,b");
    assert Literal("a,b", d);
    LiteralInstance("a,b", d);
    FencedInstanceMatches("a,b", d, "a,b");
  }

  /** a wildcard code; and, where LIKE ignores case, one that differs in case alone. */
  lemma WildcardAndCaseSkippedByQueryOnly(d: Dialect)
    ensures !SqlAllows(Some("a"), Some("_"), d) && !IsBatchSuspended(Some("a"), Some("_"))
    ensures d.foldCase ==> !SqlAllows(Some("a"), Some("A"), d) && !IsBatchSuspended(Some("a"), Some("A"))
  {
    SplitWhole("a", ',');
    assert Instance("_", d) == "a" + Instance("_"[1..], d);
    FencedInstanceMatches("_", d, "a");
    if d.foldCase {
      assert Instance("A", d) == ['a'] + Instance("A"[1..], d);
      FencedInstanceMatches("A", d, "a");
    }
  }

  lemma {:induction false} SelfMatch(p: string, rest: string, d: Dialect)
    requires !d.escapes
    ensures Like(p + rest, p + "%", d)
  {
    if p == "" {
      assert p + rest == rest && p + "%" == "%";
      LikeAnything(rest, d);
    } else {
      SelfMatch(p[1..], rest, d);
      assert (p + rest)[1..] == p[1..] + rest && (p + "%")[1..] == p[1..] + "%";
      if p[0] == '%' {
        assert Like((p + rest)[1..], (p + "%")[1..], d);
        assert Like((p + rest)[1..], p + "%", d);
      }
    }
  }

  lemma {:induction false} SelfContained(s: string, p: string, i: nat, d: Dialect)
    requires !d.escapes && i <= |s| && OccursAt(s, p, i)
    ensures Like(s, "%" + p + "%", d)
    decreases i
  {
    var pattern := "%" + p + "%";
    assert pattern[1..] == p + "%";
    if i == 0 {
      assert s == p + s[|p|..];
      SelfMatch(p, s[|p|..], d);
    } else {
      assert s[1..][i - 1..i - 1 + |p|] == s[i..i + |p|];
      SelfContained(s[1..], p, i - 1, d);
    }
  }

  /** Without escapes the query holds back everything that the code calls suspended. */
  lemma QueryHoldsBackSuspended(c: Column, batch: Option<string>, d: Dialect)
    requires !d.escapes && IsBatchSuspended(c, batch)
    ensures !SqlAllows(c, batch, d)
  {
    if c.value != "*" {
      PartsSepFree(c.value, ',');
      InSplitIffContained(c.value, ',', batch.value);
      var fenced, wanted := [','] + c.value + [','], [','] + batch.value + [','];
      var i: nat :| 0 <= i <= |fenced| && OccursAt(fenced, wanted, i);
      SelfContained(fenced, wanted, i, d);
      assert "%," + batch.value + ",%" == "%" + wanted + "%";
      assert "," + c.value + "," == fenced;
    }
  }

  /** Where backslashes escape, the query lets a suspended code that contains one through. */
  lemma EscapedCodeLetThrough(code: string, d: Dialect)
    requires d.escapes && CommaFree(code) && Fixed(code, d) && !Literal(code, d) && code != "*"
    ensures SqlAllows(Some(code), Some(code), d) && IsBatchSuspended(Some(code), Some(code))
  {
    InstanceDiffersIff(code, d);
    InstanceCommaFree(code, d);
    FilterIsMembership(code, code, d);
    SplitWhole(code, ',');
    assert code in [code];
  }

  // ---------------------------------------------------------------- a set with a top element

  datatype Suspended = Everything | Only(codes: set<string>)

  function Meaning(c: Column): Suspended {
    if OrEmpty(c) == "*" then Everything else Only(Codes(c))
  }

  function Insert(s: Suspended, code: string): Suspended {
    match s
    case Everything => Everything
    case Only(codes) => Only(codes + {code})
  }

  function Remove(s: Suspended, code: string): Suspended {
    match s
    case Everything => Everything
    case Only(codes) => Only(codes - {code})
  }

  predicate Storable(codes: set<string>) {
    forall code :: code in codes ==> CommaFree(code) && code != ""
  }

  /** What `get_suspended_batches` lists: "*" alone for a column that is "*", else the nonempty parts. */
  lemma ListedIff(c: Column, code: string)
    ensures code in Listed(c) <==>
              if c == Some("*") then code == "*"
              else c.Some? && code != "" && code in Split(c.value, ',')
  {
    SplitWhole("", ',');
  }

  /** A single batch is refused exactly out of "*". */
  lemma ActivateRefusedIff(c: Column, batch: Option<string>)
    ensures !ActivateSucceeds(c, batch) <==> batch.Some? && c == Some("*")
    ensures !ActivateSucceeds(c, batch) ==> Activate(c, batch) == c
  {
  }

  lemma CodesStorable(c: Column)
    ensures Storable(Codes(c))
  {
    PartsSepFree(OrEmpty(c), ',');
  }

  /** Splitting what sorting and joining wrote gives back the set, unless it reads as "*". */
  lemma JoinedCodes(codes: set<string>)
    requires Storable(codes) && codes != {}
    ensures Codes(Some(Join(Sorted(codes), ','))) == codes
    ensures Join(Sorted(codes), ',') == "*" <==> codes == {"*"}
  {
    SortedSpec(codes);
    var parts := Sorted(codes);
    assert forall i :: 0 <= i < |parts| ==> parts[i] in Elements(parts);
    SplitJoin(parts, ',');
    var text := Join(parts, ',');
    assert parts[0] != "";
    assert text != "";
    assert Elements(parts) - {""} == codes;
    if text == "*" {
      SplitWhole("*", ',');
      assert Elements(["*"]) == {"*"};
    }
    if codes == {"*"} {
      assert |parts| == 1;
    }
  }

  /**
    Exactly when suspending one code inserts it into the set: everything is suspended already,
    or the code is nonempty and comma-free and does not leave "*" as the only code.
   */
  lemma SuspendInsertsIff(c: Column, code: string)
    ensures Meaning(Suspend(c, Some(code))) == Insert(Meaning(c), code) <==>
              OrEmpty(c) == "*" || (code != "" && CommaFree(code) && Codes(c) + {code} != {"*"})
  {
    if OrEmpty(c) != "*" {
      CodesStorable(c);
      var codes := Codes(c) + {code};
      if code != "" && CommaFree(code) {
        JoinedCodes(codes);
      } else {
        CodesStorable(Suspend(c, Some(code)));
        assert code in codes;
      }
    }
  }

  /**
    Exactly when activating one code removes it from the set: everything is suspended (the call
    is refused), or "*" is not the only code that stays.
   */
  lemma ActivateRemovesIff(c: Column, code: string)
    ensures Meaning(Activate(c, Some(code))) == Remove(Meaning(c), code) <==>
              OrEmpty(c) == "*" || Codes(c) - {code} != {"*"}
  {
    if OrEmpty(c) != "*" {
      CodesStorable(c);
      if Codes(c) - {code} != {} {
        JoinedCodes(Codes(c) - {code});
      }
    }
  }

  /** After "a" and then "*" have been suspended as single codes, activating "a" suspends everything. */
  lemma ActivatingCanSuspendEverything()
    ensures var c := Suspend(Suspend(None, Some("a")), Some("*"));
            Meaning(c) == Only({"a", "*"}) && Meaning(Activate(c, Some("a"))) == Everything
  {
    var c1 := Suspend(None, Some("a"));
    JoinedCodes({"a"});
    JoinedCodes({"a", "*"});
    assert Codes(c1) == {"a"} && Codes(c1) + {"*"} == {"a", "*"};
    var c2 := Suspend(c1, Some("*"));
    assert "a" in {"a", "*"} && {"a", "*"} != {"*"};
    assert Codes(c2) - {"a"} == {"*"};
    JoinedCodes({"*"});
  }

  // ---------------------------------------------------------------- runs

  datatype Op = SuspendOp(batch: Option<string>) | ActivateOp(batch: Option<string>)

  /** Codes a caller may use freely. */
  predicate Ordinary(op: Op) {
    op.batch.Some? ==> op.batch.value != "" && op.batch.value != "*" && CommaFree(op.batch.value)
  }

  function ApplyToColumn(c: Column, op: Op): Column {
    match op
    case SuspendOp(batch) => Suspend(c, batch)
    case ActivateOp(batch) => Activate(c, batch)
  }

  function ApplyToSet(s: Suspended, op: Op): Suspended {
    match op
    case SuspendOp(batch) => if batch.None? then Everything else Insert(s, batch.value)
    case ActivateOp(batch) => if batch.None? then Only({}) else Remove(s, batch.value)
  }

  function RunColumn(c: Column, ops: seq<Op>): Column {
    if ops == [] then c else ApplyToColumn(RunColumn(c, ops[..|ops| - 1]), ops[|ops| - 1])
  }

  function RunSet(s: Suspended, ops: seq<Op>): Suspended {
    if ops == [] then s else ApplyToSet(RunSet(s, ops[..|ops| - 1]), ops[|ops| - 1])
  }

  predicate StarFree(s: Suspended) {
    s.Only? ==> "*" !in s.codes
  }

  /** Over any run of ordinary operations the string means what a set with a top element means. */
  lemma {:induction false} ColumnSimulatesSet(c: Column, ops: seq<Op>)
    requires StarFree(Meaning(c)) && AllOrdinary(ops)
    ensures Meaning(RunColumn(c, ops)) == RunSet(Meaning(c), ops)
    ensures StarFree(Meaning(RunColumn(c, ops)))
  {
    if ops != [] {
      var before, op := RunColumn(c, ops[..|ops| - 1]), ops[|ops| - 1];
      ColumnSimulatesSet(c, ops[..|ops| - 1]);
      if op.batch.Some? {
        var code := op.batch.value;
        assert code in Codes(before) + {code};
        assert "*" !in Codes(before) - {code} || OrEmpty(before) == "*";
        assert "*" in {"*"};
        SuspendInsertsIff(before, code);
        ActivateRemovesIff(before, code);
      }
    }
  }

  /** Whether the set view suspends a message. */
  predicate Covers(s: Suspended, batch: Option<string>) {
    s.Everything? || (batch.Some? && batch.value in s.codes)
  }

  predicate AllOrdinary(ops: seq<Op>) {
    forall i :: 0 <= i < |ops| ==> Ordinary(ops[i])
  }

  /**
    After any run of ordinary operations on a tenant without suspensions, the code and the set
    view give the same answer for every message, and so does the query for a code free of commas
    and of what its LIKE reads specially.
   */
  lemma AllReadersAgree(ops: seq<Op>, batch: Option<string>, d: Dialect)
    requires AllOrdinary(ops)
    ensures IsBatchSuspended(RunColumn(None, ops), batch) <==> Covers(RunSet(Only({}), ops), batch)
    ensures (batch.Some? ==> CommaFree(batch.value) && Literal(batch.value, d)) ==>
              (SqlAllows(RunColumn(None, ops), batch, d) <==> !Covers(RunSet(Only({}), ops), batch))
  {
    var c := RunColumn(None, ops);
    ColumnSimulatesSet(None, ops);
    WellWritten(ops);
    if batch.Some? && CommaFree(batch.value) && Literal(batch.value, d) {
      PlainAgrees(c, batch.value, d);
    }
  }

  predicate NoEmptyPart(c: Column) {
    c.Some? ==> c.value != "" && "" !in Split(c.value, ',')
  }

  /** A column written by these operations is never the empty string, nor has it an empty part. */
  lemma {:induction false} WellWritten(ops: seq<Op>)
    requires AllOrdinary(ops)
    ensures NoEmptyPart(RunColumn(None, ops))
  {
    if ops != [] {
      WellWritten(ops[..|ops| - 1]);
      WrittenParts(RunColumn(None, ops[..|ops| - 1]), ops[|ops| - 1]);
    }
  }

  lemma WrittenParts(c: Column, op: Op)
    requires Ordinary(op) && NoEmptyPart(c)
    ensures NoEmptyPart(ApplyToColumn(c, op))
  {
    SplitWhole("*", ',');
    CodesStorable(c);
    if op.batch.Some? && OrEmpty(c) != "*" {
      var codes := if op.SuspendOp? then Codes(c) + {op.batch.value} else Codes(c) - {op.batch.value};
      assert op.SuspendOp? ==> op.batch.value in codes;
      if codes != {} {
        JoinedSplit(codes);
      }
    }
  }

  lemma JoinedSplit(codes: set<string>)
    requires Storable(codes) && codes != {}
    ensures Split(Join(Sorted(codes), ','), ',') == Sorted(codes)
    ensures Join(Sorted(codes), ',') != "" && "" !in Sorted(codes)
  {
    SortedSpec(codes);
    var parts := Sorted(codes);
    assert forall i :: 0 <= i < |parts| ==> parts[i] in Elements(parts);
    SplitJoin(parts, ',');
  }

  /** Ascending ordinary codes, joined. */
  predicate Listable(list: string) {
    && Ascending(Split(list, ','))
    && forall i :: 0 <= i < |Split(list, ',')| ==> Split(list, ',')[i] != "" && Split(list, ',')[i] != "*"
  }

  /**
    Exactly the columns that runs of ordinary operations write: none, everything, or a list of
    ordinary codes in ascending order.  So what holds over all runs is what holds on these.
   */
  lemma WrittenIff(c: Column)
    ensures (exists ops :: AllOrdinary(ops) && RunColumn(None, ops) == c) <==>
              c.None? || c.value == "*" || Listable(c.value)
  {
    if c.None? {
      var ops: seq<Op> := [];
      assert AllOrdinary(ops) && RunColumn(None, ops) == c;
    } else if c.value == "*" {
      var ops := [SuspendOp(None)];
      assert ops[..0] == [] && Suspend(None, None) == c;
      assert AllOrdinary(ops) && RunColumn(None, ops) == c;
    } else if Listable(c.value) {
      var ops := ListingRun(c.value);
    } else {
      forall ops | AllOrdinary(ops)
        ensures RunColumn(None, ops) != c
      {
        if RunColumn(None, ops) == c {
          SortedColumn(ops);
          assert forall i :: 0 <= i < |Split(c.value, ',')| ==> Split(c.value, ',')[i] in Split(c.value, ',');
        }
      }
    }
  }

  predicate QueryFollowsSet(ops: seq<Op>, code: string, d: Dialect) {
    SqlAllows(RunColumn(None, ops), Some(code), d) <==> !Covers(RunSet(Only({}), ops), Some(code))
  }

  /**
    Exactly which codes the query reads as the set does, over all such runs: of those without a
    comma, the literal ones; of literal ones with a comma, those that no run writes as a column.
   */
  lemma QueryAgreesOverRunsIff(code: string, d: Dialect)
    requires CommaFree(code) || Literal(code, d)
    ensures (forall ops :: AllOrdinary(ops) ==> QueryFollowsSet(ops, code, d)) <==>
              if CommaFree(code) then Literal(code, d) else !Listable(code)
  {
    if CommaFree(code) && !Literal(code, d) {
      var ops := PartingRun(code, d);
      assert AllOrdinary(ops) && !QueryFollowsSet(ops, code, d);
    } else if !CommaFree(code) && Listable(code) {
      var ops := ListedCodeCaught(code, d);
      assert AllOrdinary(ops) && !QueryFollowsSet(ops, code, d);
    } else {
      forall ops | AllOrdinary(ops)
        ensures QueryFollowsSet(ops, code, d)
      {
        if CommaFree(code) {
          AllReadersAgree(ops, Some(code), d);
        } else {
          AllReadersAgree(ops, Some(code), d);
          UnlistableNeverCaught(ops, code, d);
        }
      }
    }
  }

  /** Suspending the parts of such a list one by one writes the list itself. */
  lemma ListingRun(list: string) returns (ops: seq<Op>)
    requires Listable(list)
    ensures AllOrdinary(ops) && RunColumn(None, ops) == Some(list)
    ensures RunSet(Only({}), ops) == Only(Elements(Split(list, ',')))
  {
    var parts := Split(list, ',');
    PartsSepFree(list, ',');
    ops := SuspendEach(parts);
    SortedUnique(parts);
    JoinSplit(list, ',');
  }

  /** A code with a comma that is such a list is caught by the query though its parts are suspended. */
  lemma ListedCodeCaught(code: string, d: Dialect) returns (ops: seq<Op>)
    requires !CommaFree(code) && Literal(code, d) && Listable(code)
    ensures AllOrdinary(ops) && !QueryFollowsSet(ops, code, d)
  {
    ops := ListingRun(code);
    LiteralInstance(code, d);
    FencedInstanceMatches(code, d, code);
    assert code !in Elements(Split(code, ',')) by {
      CommaCodeNeverInList(code, code);
    }
    assert code != "*";
  }

  lemma {:induction false} SuspendEach(parts: seq<string>) returns (ops: seq<Op>)
    requires parts != []
    requires forall i :: 0 <= i < |parts| ==> parts[i] != "" && parts[i] != "*" && CommaFree(parts[i])
    ensures AllOrdinary(ops)
    ensures RunColumn(None, ops) == Some(Join(Sorted(Elements(parts)), ','))
    ensures RunSet(Only({}), ops) == Only(Elements(parts))
  {
    var front, last := parts[..|parts| - 1], parts[|parts| - 1];
    assert parts == front + [last];
    assert Elements(parts) == Elements(front) + {last};
    if front == [] {
      ops := [SuspendOp(Some(last))];
      SuspendOnce(last);
      assert Elements(parts) == {last} && Codes(None) + {last} == {last};
      assert [SuspendOp(Some(last))][..0] == [];
    } else {
      var before := SuspendEach(front);
      ops := before + [SuspendOp(Some(last))];
      assert ops[..|ops| - 1] == before;
      ColumnSimulatesSet(None, before);
      assert Codes(RunColumn(None, before)) == Elements(front);
    }
  }

  /** A literal code with a comma that is not such a list is never found by the query, nor suspended. */
  lemma UnlistableNeverCaught(ops: seq<Op>, code: string, d: Dialect)
    requires AllOrdinary(ops) && Literal(code, d) && !CommaFree(code) && !Listable(code)
    ensures var c := RunColumn(None, ops);
            c != Some("*") ==> SqlAllows(c, Some(code), d) && !IsBatchSuspended(c, Some(code))
  {
    var c := RunColumn(None, ops);
    if c.Some? && c.value != "*" {
      CommaCodeNeverInList(c.value, code);
      if !SqlAllows(c, Some(code), d) {
        var before, after := CaughtStretch(c.value, code, d);
        SortedColumn(ops);
        StretchListable(before, Split(code, ','), after);
      }
    }
  }

  lemma CaughtStretch(list: string, code: string, d: Dialect) returns (before: seq<string>, after: seq<string>)
    requires Literal(code, d) && Like("," + list + ",", "%," + code + ",%", d)
    ensures Split(list, ',') == before + Split(code, ',') + after
  {
    CaughtContains(list, code, d);
    before, after := FencedStretch(list, ',', code);
  }

  lemma CaughtContains(list: string, code: string, d: Dialect)
    requires Literal(code, d) && Like("," + list + ",", "%," + code + ",%", d)
    ensures Contains([','] + list + [','], [','] + code + [','])
  {
    var p, text := "," + code + ",", "," + list + ",";
    LiteralInstance(code, d);
    FencedPattern(code, d);
    LikeContains(text, p, d);
    assert Contains(text, Instance(p, d)) by {
      assert "%," + code + ",%" == "%" + p + "%";
    }
    assert text == [','] + list + [','];
  }

  /** A stretch of an ascending list of ordinary codes is one itself. */
  lemma StretchListable(before: seq<string>, own: seq<string>, after: seq<string>)
    requires Ascending(before + own + after)
    requires forall part :: part in before + own + after ==> part != "" && part != "*"
    ensures Ascending(own) && forall i :: 0 <= i < |own| ==> own[i] != "" && own[i] != "*"
  {
    var parts := before + own + after;
    forall i | 0 <= i < |own|
      ensures own[i] == parts[|before| + i] && own[i] in parts
    {
    }
    forall i, j | 0 <= i < j < |own|
      ensures Less(own[i], own[j])
    {
      assert Less(parts[|before| + i], parts[|before| + j]);
    }
  }

  /** Written columns list nonempty codes in ascending order, none of them "*". */
  lemma SortedColumn(ops: seq<Op>)
    requires AllOrdinary(ops) && RunColumn(None, ops).Some? && RunColumn(None, ops) != Some("*")
    ensures Ascending(Split(RunColumn(None, ops).value, ','))
    ensures forall part :: part in Split(RunColumn(None, ops).value, ',') ==> part != "" && part != "*"
  {
    WellWritten(ops);
    ColumnSimulatesSet(None, ops);
    WrittenSorted(ops);
    var c := RunColumn(None, ops);
    forall part | part in Split(c.value, ',')
      ensures part != "" && part != "*"
    {
      assert part in Elements(Split(c.value, ','));
      assert part in Codes(c);
    }
  }

  lemma {:induction false} WrittenSorted(ops: seq<Op>)
    requires AllOrdinary(ops) && RunColumn(None, ops).Some? && RunColumn(None, ops) != Some("*")
    ensures Ascending(Split(RunColumn(None, ops).value, ','))
  {
    if ops != [] {
      var before, op := RunColumn(None, ops[..|ops| - 1]), ops[|ops| - 1];
      assert op.batch.Some? && OrEmpty(before) != "*";
      CodesStorable(before);
      var codes := if op.SuspendOp? then Codes(before) + {op.batch.value} else Codes(before) - {op.batch.value};
      assert op.SuspendOp? ==> op.batch.value in codes;
      JoinedSplit(codes);
      SortedSpec(codes);
    }
  }

  /** One suspension after which query and set part: of the instance, or of the code itself. */
  lemma PartingRun(code: string, d: Dialect) returns (ops: seq<Op>)
    requires CommaFree(code) && !Literal(code, d)
    ensures AllOrdinary(ops)
    ensures !QueryFollowsSet(ops, code, d)
  {
    var t := Instance(code, d);
    InstanceDiffersIff(code, d);
    InstanceCommaFree(code, d);
    if t != "" && t != "*" {
      ops := [SuspendOp(Some(t))];
      SuspendOnce(t);
      FencedInstanceMatches(code, d, t);
    } else {
      OneInstanceOnly(code, d);
      NotStar(code, d);
      ops := [SuspendOp(Some(code))];
      SuspendOnce(code);
      EscapedCodeLetThrough(code, d);
      assert code in {code};
    }
  }

  lemma SuspendOnce(code: string)
    requires code != "" && code != "*" && CommaFree(code)
    ensures RunColumn(None, [SuspendOp(Some(code))]) == Some(code)
    ensures RunSet(Only({}), [SuspendOp(Some(code))]) == Only({code})
  {
    var op := SuspendOp(Some(code));
    assert [op][..0] == [];
    assert Codes(None) + {code} == {code};
    var parts := Sorted({code});
    SortedSpec({code});
    assert parts == [Least({code})] + Sorted({code} - {Least({code})});
    assert {code} - {Least({code})} == {};
    assert Sorted({}) == [];
    assert parts == [code];
    assert {} + {code} == {code};
  }

  /** An instance that is empty or a star comes from a code without wildcards. */
  lemma {:induction false} OneInstanceOnly(code: string, d: Dialect)
    requires Instance(code, d) == "" || Instance(code, d) == "*"
    ensures Fixed(code, d)
  {
    if code != "" && !(|code| == 1 && Escape(code[0], d)) {
      var n := if Escape(code[0], d) then 2 else 1;
      assert Instance(code, d)[0] == '*' && Instance(code, d)[1..] == "";
      assert Escape(code[0], d) ==> Instance(code, d) == [code[1]] + Instance(code[2..], d);
      assert Instance(code[n..], d) == "";
      OneInstanceOnly(code[n..], d);
      forall i | 0 <= i < |code|
        ensures !Wildcard(code[i]) && !(d.foldCase && IsLetter(code[i]))
      {
        if i >= n {
          assert code[i] == code[n..][i - n];
        }
      }
    }
  }

  lemma NotStar(code: string, d: Dialect)
    requires !Literal(code, d)
    ensures code != "" && code != "*"
    ensures Fixed(code, d) ==> d.escapes
  {
  }
}
