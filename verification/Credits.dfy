/**
 * packages/case-lifecycle/pricing/credits.ts: spending prepaid credits. Instants are
 * milliseconds. The greedy choice of `consumeCredit` never costs a record its credit.
 */
module Credits {
  import opened Wrappers
  import opened CivilDates

  datatype Rung = SHORT | STANDARD | EXTENDED

  datatype Credit = Credit(id: string, rung: Rung, issuedAt: int, expiresAt: int, consumedAt: Option<int>,
                           packId: Option<string>)

  datatype Reason = PACK_EXHAUSTED | EXPIRED | NOT_YET_VALID | RUNG_TOO_LOW

  datatype Outcome = Spent(index: nat, credit: Credit, credits: seq<Credit>) | Refused(reason: Reason)

  function Rank(r: Rung): nat {
    match r case SHORT => 0 case STANDARD => 1 case EXTENDED => 2
  }

  predicate Unspent(c: Credit) {
    c.consumedAt.None?
  }

  predicate Unexpired(c: Credit, t: int) {
    Unspent(c) && c.expiresAt > t
  }

  predicate Live(c: Credit, t: int) {
    Unexpired(c, t) && c.issuedAt <= t
  }

  predicate Covers(c: Credit, rung: Rung, t: int) {
    Live(c, t) && Rank(c.rung) >= Rank(rung)
  }

  /** The sort: lowest rung, then soonest to expire, then earliest issued, then id. */
  predicate Before(a: Credit, b: Credit) {
    || Rank(a.rung) < Rank(b.rung)
    || (a.rung == b.rung
        && (a.expiresAt < b.expiresAt
            || (a.expiresAt == b.expiresAt
                && (a.issuedAt < b.issuedAt || (a.issuedAt == b.issuedAt && LexLess(a.id, b.id))))))
  }

  /** The index of the covering credit the sort puts first. */
  function Chosen(cs: seq<Credit>, rung: Rung, t: int): Option<nat> {
    if cs == [] then None
    else
      var n := |cs| - 1;
      var b := Chosen(cs[..n], rung, t);
      if Covers(cs[n], rung, t) && (b.None? || b.value >= n || Before(cs[n], cs[b.value])) then Some(n) else b
  }

  function Consume(c: Credit, t: int): Credit {
    Credit(c.id, c.rung, c.issuedAt, c.expiresAt, Some(t), c.packId)
  }

  /** `consumeCredit`. */
  function ConsumeCredit(cs: seq<Credit>, rung: Rung, t: int): Outcome {
    ChosenCovers(cs, rung, t);
    if forall k :: 0 <= k < |cs| ==> !Unspent(cs[k]) then Refused(PACK_EXHAUSTED)
    else if forall k :: 0 <= k < |cs| ==> !Unexpired(cs[k], t) then Refused(EXPIRED)
    else if forall k :: 0 <= k < |cs| ==> !Live(cs[k], t) then Refused(NOT_YET_VALID)
    else
      var k := Chosen(cs, rung, t);
      if k.None? then Refused(RUNG_TOO_LOW)
      else Spent(k.value, Consume(cs[k.value], t), cs[k.value := Consume(cs[k.value], t)])
  }

  lemma {:induction false} LexIrreflexive(a: string)
    ensures !LexLess(a, a)
  {
    if a != [] {
      LexIrreflexive(a[1..]);
    }
  }

  lemma {:induction false} LexTransitive(a: string, b: string, c: string)
    requires LexLess(a, b) && LexLess(b, c)
    ensures LexLess(a, c)
  {
    if a != [] && a[0] == b[0] && b[0] == c[0] {
      LexTransitive(a[1..], b[1..], c[1..]);
    }
  }

  lemma {:induction false} LexTotal(a: string, b: string)
    ensures a == b || LexLess(a, b) || LexLess(b, a)
  {
    if a != [] && b != [] && a[0] == b[0] {
      LexTotal(a[1..], b[1..]);
      assert a == [a[0]] + a[1..] && b == [b[0]] + b[1..];
    }
  }

  lemma BeforeTransitive(a: Credit, b: Credit, c: Credit)
    requires Before(a, b) && Before(b, c)
    ensures Before(a, c)
  {
    if LexLess(a.id, b.id) && LexLess(b.id, c.id) {
      LexTransitive(a.id, b.id, c.id);
    }
  }

  lemma {:induction false} ChosenCovers(cs: seq<Credit>, rung: Rung, t: int)
    ensures var k := Chosen(cs, rung, t);
            if k.Some? then k.value < |cs| && Covers(cs[k.value], rung, t)
            else forall j :: 0 <= j < |cs| ==> !Covers(cs[j], rung, t)
  {
    if cs != [] {
      ChosenCovers(cs[..|cs| - 1], rung, t);
    }
  }

  /** The chosen credit heads the sort: no covering credit comes before it, none equal to it is earlier in the list. */
  lemma {:induction false} ChosenIsFirst(cs: seq<Credit>, rung: Rung, t: int, j: nat)
    requires j < |cs| && Covers(cs[j], rung, t)
    ensures var k := Chosen(cs, rung, t);
            k.Some? && k.value < |cs| && !Before(cs[j], cs[k.value]) && (j < k.value ==> Before(cs[k.value], cs[j]))
  {
    ChosenCovers(cs, rung, t);
    var n := |cs| - 1;
    var b := Chosen(cs[..n], rung, t);
    ChosenCovers(cs[..n], rung, t);
    if j < n {
      ChosenIsFirst(cs[..n], rung, t, j);
      if Covers(cs[n], rung, t) && Before(cs[n], cs[b.value]) {
        BeforeChain(cs[n], cs[b.value], cs[j]);
      }
    } else {
      LexIrreflexive(cs[n].id);
      if b.Some? && Before(cs[n], cs[b.value]) {
        BeforeAsymmetric(cs[n], cs[b.value]);
      }
    }
  }

  lemma BeforeAsymmetric(a: Credit, b: Credit)
    requires Before(a, b)
    ensures !Before(b, a)
  {
    if Before(b, a) && LexLess(a.id, b.id) && LexLess(b.id, a.id) {
      LexTransitive(a.id, b.id, a.id);
      LexIrreflexive(a.id);
    }
  }

  lemma BeforeChain(a: Credit, b: Credit, c: Credit)
    requires Before(a, b) && !Before(c, b)
    ensures Before(a, c) && !Before(c, a)
  {
    if Before(c, a) {
      BeforeTransitive(c, a, b);
      assert false;
    }
    LexTotal(a.id, c.id);
  }

  /** The refusal says why: the first of the four filters that leaves nothing. */
  lemma RefusalReason(cs: seq<Credit>, rung: Rung, t: int)
    ensures ConsumeCredit(cs, rung, t).Refused? <==> forall k :: 0 <= k < |cs| ==> !Covers(cs[k], rung, t)
    ensures ConsumeCredit(cs, rung, t) == Refused(RUNG_TOO_LOW) ==>
              exists k :: 0 <= k < |cs| && Live(cs[k], t) && Rank(cs[k].rung) < Rank(rung)
    ensures ConsumeCredit(cs, rung, t) == Refused(NOT_YET_VALID) ==>
              exists k :: 0 <= k < |cs| && Unexpired(cs[k], t) && cs[k].issuedAt > t
    ensures ConsumeCredit(cs, rung, t) == Refused(EXPIRED) ==>
              exists k :: 0 <= k < |cs| && Unspent(cs[k]) && cs[k].expiresAt <= t
  {
    ChosenCovers(cs, rung, t);
  }

  function SpentCount(cs: seq<Credit>): nat {
    if cs == [] then 0 else SpentCount(cs[..|cs| - 1]) + if Unspent(cs[|cs| - 1]) then 0 else 1
  }

  lemma {:induction false} SpentOneMore(cs: seq<Credit>, k: nat, t: int)
    requires k < |cs| && Unspent(cs[k])
    ensures SpentCount(cs[k := Consume(cs[k], t)]) == SpentCount(cs) + 1
  {
    var n := |cs| - 1;
    var ds := cs[k := Consume(cs[k], t)];
    if k < n {
      SpentOneMore(cs[..n], k, t);
      assert ds[..n] == cs[..n][k := Consume(cs[k], t)];
    } else {
      assert ds[..n] == cs[..n];
    }
  }

  /** Each success marks exactly one credit spent, a live one of sufficient rung, and leaves the others alone. */
  lemma SpendsExactlyOne(cs: seq<Credit>, rung: Rung, t: int)
    requires ConsumeCredit(cs, rung, t).Spent?
    ensures var r := ConsumeCredit(cs, rung, t);
            r.index < |cs| == |r.credits| && Covers(cs[r.index], rung, t)
            && r.credits[r.index] == r.credit && r.credit.consumedAt == Some(t) && r.credit.id == cs[r.index].id
            && r.credit.rung == cs[r.index].rung && r.credit.packId == cs[r.index].packId
            && r.credit.issuedAt == cs[r.index].issuedAt && r.credit.expiresAt == cs[r.index].expiresAt
            && (forall j :: 0 <= j < |cs| && j != r.index ==> r.credits[j] == cs[j])
            && SpentCount(r.credits) == SpentCount(cs) + 1
  {
    ChosenCovers(cs, rung, t);
    SpentOneMore(cs, ConsumeCredit(cs, rung, t).index, t);
  }

  // ---- Many records at one instant ----

  /** `f` gives each record of its domain a covering credit of its own. */
  ghost predicate IsAssignment(f: map<nat, nat>, records: seq<Rung>, cs: seq<Credit>, t: int) {
    && (forall i :: i in f ==> i < |records| && f[i] < |cs| && Covers(cs[f[i]], records[i], t))
    && (forall i, j :: i in f && j in f && f[i] == f[j] ==> i == j)
  }

  /** Spend one credit per record, in the given order of records; None once one is refused. */
  function SpendAll(cs: seq<Credit>, records: seq<Rung>, order: seq<nat>, t: int): Option<seq<Credit>>
    requires forall k :: 0 <= k < |order| ==> order[k] < |records|
    decreases |order|
  {
    if order == [] then Some(cs)
    else
      match ConsumeCredit(cs, records[order[0]], t)
      case Refused(_) => None
      case Spent(_, _, rest) => SpendAll(rest, records, order[1..], t)
  }

  /** The exchange: whoever was promised the credit now spent takes the one record `i` was promised. */
  ghost function Exchange(f: map<nat, nat>, i: nat, k: nat): map<nat, nat>
    requires i in f
  {
    map j | j in f && j != i :: if f[j] == k then f[i] else f[j]
  }

  lemma ExchangeAssigns(f: map<nat, nat>, records: seq<Rung>, cs: seq<Credit>, t: int, i: nat)
    requires IsAssignment(f, records, cs, t) && i in f
    ensures var r := ConsumeCredit(cs, records[i], t);
            r.Spent? && IsAssignment(Exchange(f, i, r.index), records, r.credits, t)
  {
    ChosenIsFirst(cs, records[i], t, f[i]);
    var r := ConsumeCredit(cs, records[i], t);
    var g := Exchange(f, i, r.index);
    forall j | j in g
      ensures j < |records| && g[j] < |cs| && g[j] != r.index && Covers(cs[g[j]], records[j], t)
    {
      if f[j] == r.index {
        assert f[i] != r.index;
        assert Rank(cs[r.index].rung) <= Rank(cs[f[i]].rung);
      }
    }
  }

  /** If some assignment covers the records, the greedy rule covers them in any order. */
  lemma {:induction false} GreedyNeverRefuses(f: map<nat, nat>, records: seq<Rung>, cs: seq<Credit>, t: int,
                                              order: seq<nat>)
    requires IsAssignment(f, records, cs, t) && NoRepeats(order)
    requires forall k :: 0 <= k < |order| ==> order[k] in f
    ensures SpendAll(cs, records, order, t).Some?
    ensures SpentCount(SpendAll(cs, records, order, t).value) == SpentCount(cs) + |order|
    decreases |order|
  {
    if order != [] {
      var i := order[0];
      ExchangeAssigns(f, records, cs, t, i);
      var r := ConsumeCredit(cs, records[i], t);
      SpendsExactlyOne(cs, records[i], t);
      GreedyNeverRefuses(Exchange(f, i, r.index), records, r.credits, t, order[1..]);
    }
  }

  /** Conversely, what the greedy rule spends is an assignment. */
  lemma {:induction false} GreedyAssigns(records: seq<Rung>, cs: seq<Credit>, t: int, order: seq<nat>)
    returns (f: map<nat, nat>)
    requires NoRepeats(order) && forall k :: 0 <= k < |order| ==> order[k] < |records|
    requires SpendAll(cs, records, order, t).Some?
    ensures IsAssignment(f, records, cs, t)
    ensures forall i :: i in f <==> i in order
    decreases |order|
  {
    if order == [] {
      f := map[];
    } else {
      var i := order[0];
      var r := ConsumeCredit(cs, records[i], t);
      SpendsExactlyOne(cs, records[i], t);
      var g := GreedyAssigns(records, r.credits, t, order[1..]);
      assert i !in g;
      f := g[i := r.index];
      assert forall j :: j in order <==> j == i || j in order[1..];
    }
  }

  /** Greedy is exact: it covers the records, in whatever order, if and only if some assignment of live credits does. */
  lemma GreedyIsExact(records: seq<Rung>, cs: seq<Credit>, t: int, order: seq<nat>)
    requires NoRepeats(order) && forall k :: 0 <= k < |order| ==> order[k] < |records|
    ensures SpendAll(cs, records, order, t).Some?
       <==> exists f :: IsAssignment(f, records, cs, t) && forall i :: i in f <==> i in order
  {
    if SpendAll(cs, records, order, t).Some? {
      var f := GreedyAssigns(records, cs, t, order);
    }
    if f :| IsAssignment(f, records, cs, t) && forall i :: i in f <==> i in order {
      GreedyNeverRefuses(f, records, cs, t, order);
    }
  }

  // ---- Which credit ----

  /** Of the covering credits, the one spent is of the least rung; then expires soonest; then was issued earliest. */
  lemma SpendsLeastRungSoonest(cs: seq<Credit>, rung: Rung, t: int, j: nat)
    requires ConsumeCredit(cs, rung, t).Spent? && j < |cs| && Live(cs[j], t) && Rank(cs[j].rung) >= Rank(rung)
    ensures var k := ConsumeCredit(cs, rung, t).index;
            && k < |cs| && Rank(cs[k].rung) <= Rank(cs[j].rung)
            && (cs[j].rung == cs[k].rung ==> cs[k].expiresAt <= cs[j].expiresAt)
            && (cs[j].rung == cs[k].rung && cs[j].expiresAt == cs[k].expiresAt ==> cs[k].issuedAt <= cs[j].issuedAt)
  {
    ChosenIsFirst(cs, rung, t, j);
  }

  /** When a credit is live, and what covers what: the rung of the record or a higher one. */
  lemma CoversExactly(c: Credit, rung: Rung, t: int)
    ensures Covers(c, rung, t) <==>
              && c.consumedAt.None? && c.issuedAt <= t < c.expiresAt
              && (rung == SHORT || c.rung == rung || (rung == STANDARD && c.rung == EXTENDED))
  {
  }

  /** Each reason, exactly: all spent; else all expired; else none begun; else none of sufficient rung. */
  lemma RefusalExactly(cs: seq<Credit>, rung: Rung, t: int)
    ensures var r := ConsumeCredit(cs, rung, t);
            var left := exists k :: 0 <= k < |cs| && cs[k].consumedAt.None?;
            var unexpired := exists k :: 0 <= k < |cs| && cs[k].consumedAt.None? && t < cs[k].expiresAt;
            var live := exists k :: 0 <= k < |cs| && cs[k].consumedAt.None? && cs[k].issuedAt <= t < cs[k].expiresAt;
            && (r == Refused(PACK_EXHAUSTED) <==> !left) && (r == Refused(EXPIRED) <==> left && !unexpired)
            && (r == Refused(NOT_YET_VALID) <==> unexpired && !live)
            && (r == Refused(RUNG_TOO_LOW) <==> live && forall k :: 0 <= k < |cs| ==> !Covers(cs[k], rung, t))
  {
    ChosenCovers(cs, rung, t);
  }
}
