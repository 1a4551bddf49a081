/**
 The wallet-ledger continuity check of the restore drill: rows grouped by client, each group sorted by
 sequence number and followed as a chain of balances.
 */
module LedgerChain {
  import opened Common

  datatype LedgerRow = LedgerRow(client: string, seqNo: int, amount: int, balance: int)
  datatype LedgerBreak = LedgerBreak(client: string, seqNo: int, expected: int, actual: int)
  datatype ChainResult = ChainResult(clientsChecked: nat, rowsChecked: nat, breaks: seq<LedgerBreak>)

  // ---------------------------------------------------------------- groups

  /** The rows of one client, in the order given. */
  function Group(rows: seq<LedgerRow>, client: string): seq<LedgerRow> {
    if rows == [] then []
    else Group(rows[..|rows| - 1], client) + if rows[|rows| - 1].client == client then [rows[|rows| - 1]] else []
  }

  /** The clients, by first row. */
  function Clients(rows: seq<LedgerRow>): seq<string> {
    if rows == [] then []
    else
      var before, c := Clients(rows[..|rows| - 1]), rows[|rows| - 1].client;
      if c in before then before else before + [c]
  }

  function Insert(row: LedgerRow, sorted: seq<LedgerRow>): seq<LedgerRow> {
    if sorted == [] || row.seqNo <= sorted[0].seqNo then [row] + sorted
    else [sorted[0]] + Insert(row, sorted[1..])
  }

  /** Stable sort by sequence number. */
  function SortBySeq(rows: seq<LedgerRow>): seq<LedgerRow> {
    if rows == [] then [] else Insert(rows[0], SortBySeq(rows[1..]))
  }

  // ---------------------------------------------------------------- one chain

  function Previous(chain: seq<LedgerRow>, i: nat): int
    requires i < |chain|
  {
    if i == 0 then 0 else chain[i - 1].balance
  }

  function ExpectedAt(chain: seq<LedgerRow>, i: nat): int
    requires i < |chain|
  {
    Previous(chain, i) + chain[i].amount
  }

  predicate Broken(chain: seq<LedgerRow>, i: nat)
    requires i < |chain|
  {
    chain[i].balance != ExpectedAt(chain, i)
  }

  function BreakAt(chain: seq<LedgerRow>, i: nat): LedgerBreak
    requires i < |chain|
  {
    LedgerBreak(chain[i].client, chain[i].seqNo, ExpectedAt(chain, i), chain[i].balance)
  }

  /** The breaks among the first n rows of a chain. */
  function Breaks(chain: seq<LedgerRow>, n: nat): seq<LedgerBreak>
    requires n <= |chain|
  {
    if n == 0 then [] else Breaks(chain, n - 1) + if Broken(chain, n - 1) then [BreakAt(chain, n - 1)] else []
  }

  function ChainOf(rows: seq<LedgerRow>, client: string): seq<LedgerRow> { SortBySeq(Group(rows, client)) }

  function ClientBreaks(rows: seq<LedgerRow>, client: string): seq<LedgerBreak> {
    Breaks(ChainOf(rows, client), |ChainOf(rows, client)|)
  }

  /** The breaks of the first n clients. */
  function AllBreaks(rows: seq<LedgerRow>, clients: seq<string>, n: nat): seq<LedgerBreak>
    requires n <= |clients|
  {
    if n == 0 then [] else AllBreaks(rows, clients, n - 1) + ClientBreaks(rows, clients[n - 1])
  }

  function RowCount(rows: seq<LedgerRow>, clients: seq<string>, n: nat): nat
    requires n <= |clients|
  {
    if n == 0 then 0 else RowCount(rows, clients, n - 1) + |ChainOf(rows, clients[n - 1])|
  }

  // ---------------------------------------------------------------- the check

  /** byClient holds each client's rows; order remembers which client came first. */
  ghost predicate Grouped(rows: seq<LedgerRow>, byClient: map<string, seq<LedgerRow>>, order: seq<string>) {
    && order == Clients(rows)
    && (forall c :: c in byClient <==> c in order)
    && forall c :: c in byClient ==> byClient[c] == Group(rows, c)
  }

  lemma {:induction false} NoRowsNoGroup(rows: seq<LedgerRow>, client: string)
    requires client !in Clients(rows)
    ensures Group(rows, client) == []
  {
    if rows == [] {
    } else {
      NoRowsNoGroup(rows[..|rows| - 1], client);
    }
  }

  method GroupRows(rows: seq<LedgerRow>) returns (byClient: map<string, seq<LedgerRow>>, order: seq<string>)
    ensures Grouped(rows, byClient, order)
  {
    byClient := map[];
    order := [];
    for i := 0 to |rows|
      invariant Grouped(rows[..i], byClient, order)
    {
      var row := rows[i];
      assert rows[..i + 1][..i] == rows[..i];
      NoRows(rows[..i], row.client);
      if row.client !in byClient {
        byClient := byClient[row.client := [row]];
        order := order + [row.client];
      } else {
        byClient := byClient[row.client := byClient[row.client] + [row]];
      }
    }
    assert rows[..|rows|] == rows;
  }

  lemma NoRows(rows: seq<LedgerRow>, client: string)
    ensures client !in Clients(rows) ==> Group(rows, client) == []
  {
    if client !in Clients(rows) { NoRowsNoGroup(rows, client); }
  }

  /** Follows one sorted group. */
  method CheckChain(clientId: string, sorted: seq<LedgerRow>) returns (breaks: seq<LedgerBreak>, rowsChecked: nat)
    requires forall i :: 0 <= i < |sorted| ==> sorted[i].client == clientId
    ensures breaks == Breaks(sorted, |sorted|) && rowsChecked == |sorted|
  {
    breaks := [];
    rowsChecked := 0;
    var previousBalance: Option<int> := None;
    for i := 0 to |sorted|
      invariant rowsChecked == i && breaks == Breaks(sorted, i)
      invariant previousBalance == if i == 0 then None else Some(sorted[i - 1].balance)
    {
      var row := sorted[i];
      rowsChecked := rowsChecked + 1;
      var expected := match previousBalance case None => row.amount case Some(b) => b + row.amount;
      if expected != row.balance {
        breaks := breaks + [LedgerBreak(clientId, row.seqNo, expected, row.balance)];
      }
      previousBalance := Some(row.balance);
    }
  }

  method EvaluateLedgerChain(rows: seq<LedgerRow>) returns (r: ChainResult)
    ensures r.clientsChecked == |Clients(rows)| && r.rowsChecked == RowCount(rows, Clients(rows), |Clients(rows)|)
    ensures r.breaks == AllBreaks(rows, Clients(rows), |Clients(rows)|)
  {
    hide Clients, Group, SortBySeq, Breaks;
    var byClient, order := GroupRows(rows);
    var breaks: seq<LedgerBreak> := [];
    var rowsChecked := 0;
    for n := 0 to |order|
      invariant breaks == AllBreaks(rows, order, n) && rowsChecked == RowCount(rows, order, n)
    {
      var clientId := order[n];
      assert clientId in byClient;
      SameClient(rows, clientId);
      var found, checked := CheckChain(clientId, SortBySeq(byClient[clientId]));
      breaks := breaks + found;
      rowsChecked := rowsChecked + checked;
    }
    r := ChainResult(|order|, rowsChecked, breaks);
  }

  lemma {:induction false} InsertMembers(row: LedgerRow, sorted: seq<LedgerRow>)
    ensures |Insert(row, sorted)| == |sorted| + 1 && forall r :: r in Insert(row, sorted) <==> r == row || r in sorted
  {
    if !(sorted == [] || row.seqNo <= sorted[0].seqNo) {
      InsertMembers(row, sorted[1..]);
      assert sorted == [sorted[0]] + sorted[1..];
    }
  }

  lemma {:induction false} SortMembers(rows: seq<LedgerRow>)
    ensures |SortBySeq(rows)| == |rows| && forall r :: r in SortBySeq(rows) <==> r in rows
  {
    if rows == [] {
    } else {
      SortMembers(rows[1..]);
      InsertMembers(rows[0], SortBySeq(rows[1..]));
      assert rows == [rows[0]] + rows[1..];
    }
  }

  lemma {:induction false} GroupMembers(rows: seq<LedgerRow>, client: string)
    ensures forall r :: r in Group(rows, client) <==> r in rows && r.client == client
  {
    if rows == [] {
    } else {
      GroupMembers(rows[..|rows| - 1], client);
      assert rows == rows[..|rows| - 1] + [rows[|rows| - 1]];
    }
  }

  lemma SameClient(rows: seq<LedgerRow>, client: string)
    ensures forall r :: r in ChainOf(rows, client) <==> r in rows && r.client == client
    ensures forall i :: 0 <= i < |ChainOf(rows, client)| ==> ChainOf(rows, client)[i].client == client
  {
    SortMembers(Group(rows, client));
    GroupMembers(rows, client);
    hide SortBySeq, Group;
    forall i | 0 <= i < |ChainOf(rows, client)| ensures ChainOf(rows, client)[i].client == client {
      assert ChainOf(rows, client)[i] in ChainOf(rows, client);
    }
  }

  lemma {:induction false} ClientsMeaning(rows: seq<LedgerRow>, client: string)
    ensures client in Clients(rows) <==> exists r :: r in rows && r.client == client
  {
    if rows == [] {
    } else {
      ClientsMeaning(rows[..|rows| - 1], client);
      assert rows == rows[..|rows| - 1] + [rows[|rows| - 1]];
    }
  }

  // ---------------------------------------------------------------- every row is checked once

  ghost predicate NoTwice<T>(xs: seq<T>) { forall i, j :: 0 <= i < j < |xs| ==> xs[i] != xs[j] }

  lemma {:induction false} ClientsOnce(rows: seq<LedgerRow>)
    ensures NoTwice(Clients(rows))
  {
    if rows == [] {
    } else {
      ClientsOnce(rows[..|rows| - 1]);
    }
  }

  lemma ChainGrows(rows: seq<LedgerRow>, row: LedgerRow, client: string)
    ensures |ChainOf(rows + [row], client)| == |ChainOf(rows, client)| + if row.client == client then 1 else 0
  {
    SortMembers(Group(rows, client));
    SortMembers(Group(rows + [row], client));
    assert (rows + [row])[..|rows|] == rows;
  }

  /** One more row adds one to the count of its own client, if that is among the clients counted. */
  lemma {:induction false} RowCountStep(rows: seq<LedgerRow>, row: LedgerRow, clients: seq<string>, n: nat)
    requires n <= |clients| && NoTwice(clients)
    ensures RowCount(rows + [row], clients, n)
            == RowCount(rows, clients, n) + if row.client in clients[..n] then 1 else 0
  {
    hide ChainOf, NoTwice;
    if n == 0 {
    } else {
      RowCountStep(rows, row, clients, n - 1);
      TakeOne(clients, n - 1);
      ChainGrows(rows, row, clients[n - 1]);
    }
  }

  lemma TakeOne(clients: seq<string>, n: nat)
    requires n < |clients| && NoTwice(clients)
    ensures clients[n] !in clients[..n]
    ensures forall c :: c in clients[..n + 1] <==> c in clients[..n] || c == clients[n]
  {
    assert clients[..n + 1] == clients[..n] + [clients[n]];
  }

  lemma {:induction false} NothingToCount(clients: seq<string>, n: nat)
    requires n <= |clients|
    ensures RowCount([], clients, n) == 0
  {
    if n == 0 {
    } else {
      NothingToCount(clients, n - 1);
    }
  }

  lemma {:induction false} RowCountIsLength(rows: seq<LedgerRow>, clients: seq<string>)
    requires NoTwice(clients) && forall r :: r in rows ==> r.client in clients
    ensures RowCount(rows, clients, |clients|) == |rows|
  {
    if rows == [] {
      NothingToCount(clients, |clients|);
    } else {
      var n := |rows| - 1;
      assert rows == rows[..n] + [rows[n]];
      assert clients[..|clients|] == clients;
      RowCountIsLength(rows[..n], clients);
      RowCountStep(rows[..n], rows[n], clients, |clients|);
    }
  }

  /** Every row of the ledger is checked exactly once. */
  lemma EveryRowChecked(rows: seq<LedgerRow>)
    ensures RowCount(rows, Clients(rows), |Clients(rows)|) == |rows|
  {
    ClientsOnce(rows);
    forall r | r in rows ensures r.client in Clients(rows) { ClientsMeaning(rows, r.client); }
    RowCountIsLength(rows, Clients(rows));
  }

  // ---------------------------------------------------------------- the sorted chain

  ghost predicate Ascending(chain: seq<LedgerRow>) {
    forall i, j :: 0 <= i < j < |chain| ==> chain[i].seqNo <= chain[j].seqNo
  }

  /** The rows with one sequence number. */
  function WithSeq(rows: seq<LedgerRow>, v: int): seq<LedgerRow> {
    if rows == [] then [] else (if rows[0].seqNo == v then [rows[0]] else []) + WithSeq(rows[1..], v)
  }

  lemma AscendingTail(chain: seq<LedgerRow>)
    requires chain != [] && Ascending(chain)
    ensures Ascending(chain[1..]) && forall r :: r in chain ==> chain[0].seqNo <= r.seqNo
  {
    forall r | r in chain ensures chain[0].seqNo <= r.seqNo {
      var i :| 0 <= i < |chain| && chain[i] == r;
    }
  }

  lemma AscendingCons(row: LedgerRow, chain: seq<LedgerRow>)
    requires Ascending(chain) && forall r :: r in chain ==> row.seqNo <= r.seqNo
    ensures Ascending([row] + chain)
  {
    forall i, j | 0 <= i < j < |chain| + 1 ensures ([row] + chain)[i].seqNo <= ([row] + chain)[j].seqNo {
      assert ([row] + chain)[j] == chain[j - 1] && chain[j - 1] in chain;
      if i > 0 { assert ([row] + chain)[i] == chain[i - 1]; }
    }
  }

  lemma {:induction false} InsertAscending(row: LedgerRow, sorted: seq<LedgerRow>)
    requires Ascending(sorted)
    ensures Ascending(Insert(row, sorted))
  {
    InsertMembers(row, sorted);
    if sorted != [] {
      AscendingTail(sorted);
      if row.seqNo <= sorted[0].seqNo {
        AscendingCons(row, sorted);
      } else {
        InsertAscending(row, sorted[1..]);
        InsertMembers(row, sorted[1..]);
        hide Ascending;
        AscendingCons(sorted[0], Insert(row, sorted[1..]));
      }
    }
  }

  lemma ConsWithSeq(row: LedgerRow, rows: seq<LedgerRow>, v: int)
    ensures WithSeq([row] + rows, v) == (if row.seqNo == v then [row] else []) + WithSeq(rows, v)
  {
    assert ([row] + rows)[1..] == rows;
  }

  lemma {:induction false} InsertStable(row: LedgerRow, sorted: seq<LedgerRow>, v: int)
    ensures WithSeq(Insert(row, sorted), v) == (if row.seqNo == v then [row] else []) + WithSeq(sorted, v)
  {
    ConsWithSeq(row, sorted, v);
    if sorted != [] && row.seqNo > sorted[0].seqNo {
      InsertStable(row, sorted[1..], v);
      ConsWithSeq(sorted[0], Insert(row, sorted[1..]), v);
    }
  }

  lemma {:induction false} SortAscending(rows: seq<LedgerRow>)
    ensures Ascending(SortBySeq(rows))
  {
    if rows == [] {
    } else {
      SortAscending(rows[1..]);
      InsertAscending(rows[0], SortBySeq(rows[1..]));
    }
  }

  lemma {:induction false} SortStable(rows: seq<LedgerRow>, v: int)
    ensures WithSeq(SortBySeq(rows), v) == WithSeq(rows, v)
  {
    if rows == [] {
    } else {
      SortStable(rows[1..], v);
      InsertStable(rows[0], SortBySeq(rows[1..]), v);
    }
  }

  /** A chain holds the rows of its client by ascending sequence number; rows that share one stay in the order given. */
  lemma ChainMeaning(rows: seq<LedgerRow>, client: string)
    ensures var chain := ChainOf(rows, client);
            && Ascending(chain) && (forall r :: r in chain <==> r in rows && r.client == client)
            && forall v :: WithSeq(chain, v) == WithSeq(Group(rows, client), v)
  {
    SameClient(rows, client);
    SortAscending(Group(rows, client));
    hide SortBySeq, Group, WithSeq, Ascending;
    forall v ensures WithSeq(ChainOf(rows, client), v) == WithSeq(Group(rows, client), v) {
      SortStable(Group(rows, client), v);
    }
  }

  // ---------------------------------------------------------------- order does not matter

  ghost predicate Increasing(chain: seq<LedgerRow>) {
    forall i, j :: 0 <= i < j < |chain| ==> chain[i].seqNo < chain[j].seqNo
  }

  /** No client has two rows with one sequence number. */
  ghost predicate DistinctSeqs(rows: seq<LedgerRow>) {
    forall i, j :: 0 <= i < j < |rows| && rows[i].client == rows[j].client ==> rows[i].seqNo != rows[j].seqNo
  }

  ghost predicate NoSeqTwice(rows: seq<LedgerRow>) {
    forall i, j :: 0 <= i < j < |rows| ==> rows[i].seqNo != rows[j].seqNo
  }

  lemma TailAbove(chain: seq<LedgerRow>)
    requires Increasing(chain) && chain != []
    ensures Increasing(chain[1..]) && forall r :: r in chain <==> r == chain[0] || r in chain[1..]
    ensures forall r :: r in chain[1..] ==> r.seqNo > chain[0].seqNo
  {
    assert chain == [chain[0]] + chain[1..];
    forall r | r in chain[1..] ensures r.seqNo > chain[0].seqNo {
      var i :| 0 <= i < |chain[1..]| && chain[1..][i] == r;
      assert chain[i + 1] == r;
    }
  }

  lemma ConsIncreasing(row: LedgerRow, chain: seq<LedgerRow>)
    requires Increasing(chain) && forall r :: r in chain ==> row.seqNo < r.seqNo
    ensures Increasing([row] + chain)
  {
    assert forall i :: 0 <= i < |chain| ==> chain[i] in chain;
  }

  lemma {:induction false} InsertIncreasing(row: LedgerRow, sorted: seq<LedgerRow>)
    requires Increasing(sorted) && forall r :: r in sorted ==> r.seqNo != row.seqNo
    ensures Increasing(Insert(row, sorted))
  {
    if sorted == [] {
    } else {
      TailAbove(sorted);
      if row.seqNo <= sorted[0].seqNo {
        ConsIncreasing(row, sorted);
      } else {
        InsertIncreasing(row, sorted[1..]);
        InsertMembers(row, sorted[1..]);
        ConsIncreasing(sorted[0], Insert(row, sorted[1..]));
      }
      hide Increasing;
    }
  }

  lemma {:induction false} SortIncreasing(rows: seq<LedgerRow>)
    requires NoSeqTwice(rows)
    ensures Increasing(SortBySeq(rows))
  {
    if rows == [] {
    } else {
      SortIncreasing(rows[1..]);
      SortMembers(rows[1..]);
      forall r | r in SortBySeq(rows[1..]) ensures r.seqNo != rows[0].seqNo {
        var i :| 0 <= i < |rows[1..]| && rows[1..][i] == r;
        assert rows[i + 1] == r;
      }
      InsertIncreasing(rows[0], SortBySeq(rows[1..]));
    }
  }

  lemma FirstIsIn(chain: seq<LedgerRow>)
    ensures chain != [] ==> chain[0] in chain
  {
  }

  lemma {:induction false} IncreasingUnique(xs: seq<LedgerRow>, ys: seq<LedgerRow>)
    requires Increasing(xs) && Increasing(ys) && forall r :: r in xs <==> r in ys
    ensures xs == ys
  {
    FirstIsIn(xs);
    FirstIsIn(ys);
    if xs == [] {
    } else {
      TailAbove(xs);
      TailAbove(ys);
      assert xs[0] == ys[0];
      IncreasingUnique(xs[1..], ys[1..]);
    }
  }

  lemma GroupStep(rows: seq<LedgerRow>, client: string)
    requires rows != [] && DistinctSeqs(rows) && rows[|rows| - 1].client == client
    requires NoSeqTwice(Group(rows[..|rows| - 1], client))
    ensures NoSeqTwice(Group(rows, client))
  {
    var n := |rows| - 1;
    var before := Group(rows[..n], client);
    GroupMembers(rows[..n], client);
    assert Group(rows, client) == before + [rows[n]];
    hide Group;
    forall i | 0 <= i < |before| ensures before[i].seqNo != rows[n].seqNo {
      assert before[i] in before;
      var k :| 0 <= k < n && rows[..n][k] == before[i];
      assert rows[k] == before[i];
    }
  }

  lemma {:induction false} GroupDistinct(rows: seq<LedgerRow>, client: string)
    requires DistinctSeqs(rows)
    ensures NoSeqTwice(Group(rows, client))
  {
    if rows == [] {
    } else {
      var n := |rows| - 1;
      assert DistinctSeqs(rows[..n]) by {
        assert forall i :: 0 <= i < n ==> rows[..n][i] == rows[i];
      }
      GroupDistinct(rows[..n], client);
      if rows[n].client == client {
        GroupStep(rows, client);
      } else {
        assert Group(rows, client) == Group(rows[..n], client);
      }
    }
  }

  /** The sorted chain of a client: exactly its rows, by sequence number. */
  lemma ChainIncreasing(rows: seq<LedgerRow>, client: string)
    requires DistinctSeqs(rows)
    ensures Increasing(ChainOf(rows, client))
  {
    GroupDistinct(rows, client);
    SortIncreasing(Group(rows, client));
  }

  /** The same rows in any order give every client the same breaks. */
  lemma OrderIndependent(rows: seq<LedgerRow>, other: seq<LedgerRow>, client: string)
    requires DistinctSeqs(rows) && DistinctSeqs(other) && forall r :: r in rows <==> r in other
    ensures ChainOf(rows, client) == ChainOf(other, client) && ClientBreaks(rows, client) == ClientBreaks(other, client)
    ensures client in Clients(rows) <==> client in Clients(other)
  {
    ChainIncreasing(rows, client);
    ChainIncreasing(other, client);
    SameClient(rows, client);
    SameClient(other, client);
    ClientsMeaning(rows, client);
    ClientsMeaning(other, client);
    hide ChainOf, Increasing, DistinctSeqs, Clients;
    IncreasingUnique(ChainOf(rows, client), ChainOf(other, client));
  }

  lemma {:induction false} SizeOfOnce<T>(xs: seq<T>)
    requires NoTwice(xs)
    ensures |set x | x in xs| == |xs|
  {
    if xs == [] {
    } else {
      var n := |xs| - 1;
      SizeOfOnce(xs[..n]);
      assert xs == xs[..n] + [xs[n]];
      assert (set x | x in xs) == (set x | x in xs[..n]) + {xs[n]};
    }
  }

  lemma SameSize<T(!new)>(xs: seq<T>, ys: seq<T>)
    requires NoTwice(xs) && NoTwice(ys) && forall x :: x in xs <==> x in ys
    ensures |xs| == |ys|
  {
    SizeOfOnce(xs);
    SizeOfOnce(ys);
    assert (set x | x in xs) == (set x | x in ys);
  }

  /** The breaks of some clients, one after the other. */
  function Joined(rows: seq<LedgerRow>, clients: seq<string>): seq<LedgerBreak> { AllBreaks(rows, clients, |clients|) }

  lemma {:induction false} AllBreaksPrefix(rows: seq<LedgerRow>, clients: seq<string>, more: seq<string>, n: nat)
    requires n <= |clients|
    ensures AllBreaks(rows, clients + more, n) == AllBreaks(rows, clients, n)
  {
    hide ClientBreaks;
    if n == 0 {
    } else {
      AllBreaksPrefix(rows, clients, more, n - 1);
    }
  }

  lemma JoinedSnoc(rows: seq<LedgerRow>, clients: seq<string>, c: string)
    ensures Joined(rows, clients + [c]) == Joined(rows, clients) + ClientBreaks(rows, c)
  {
    hide ClientBreaks;
    AllBreaksPrefix(rows, clients, [c], |clients|);
  }

  /** A client can be taken out of the middle. */
  lemma {:induction false} TakenOut(rows: seq<LedgerRow>, before: seq<string>, c: string, after: seq<string>)
    ensures multiset(Joined(rows, before + [c] + after))
            == multiset(Joined(rows, before + after)) + multiset(ClientBreaks(rows, c))
  {
    hide Joined, ClientBreaks;
    if after == [] {
      assert before + [c] + after == before + [c] && before + after == before;
      JoinedSnoc(rows, before, c);
    } else {
      var n := |after| - 1;
      var front, last := after[..n], after[n];
      assert after == front + [last];
      assert before + [c] + after == (before + [c] + front) + [last] && before + after == (before + front) + [last];
      TakenOut(rows, before, c, front);
      JoinedSnoc(rows, before + [c] + front, last);
      JoinedSnoc(rows, before + front, last);
    }
  }

  lemma WithoutOne(xs: seq<string>, ys: seq<string>) returns (before: seq<string>, after: seq<string>)
    requires xs != [] && NoTwice(xs) && NoTwice(ys) && forall c :: c in xs <==> c in ys
    ensures ys == before + [xs[|xs| - 1]] + after && NoTwice(before + after)
    ensures forall c :: c in xs[..|xs| - 1] <==> c in before + after
  {
    var n := |xs| - 1;
    assert xs[n] in ys;
    var k :| 0 <= k < |ys| && ys[k] == xs[n];
    before, after := ys[..k], ys[k + 1..];
    assert xs == xs[..n] + [xs[n]] && ys == before + [xs[n]] + after;
    assert forall i :: 0 <= i < |before + after| ==> (before + after)[i] == ys[if i < k then i else i + 1];
    assert xs[n] !in xs[..n] && xs[n] !in before + after;
    forall c ensures c in xs[..n] <==> c in before + after {
      assert c in xs <==> c in xs[..n] || c == xs[n];
      assert c in ys <==> c in before + after || c == xs[n];
    }
  }

  lemma {:induction false} SameBreaks(rows: seq<LedgerRow>, other: seq<LedgerRow>, xs: seq<string>, ys: seq<string>)
    requires NoTwice(xs) && NoTwice(ys) && forall c :: c in xs <==> c in ys
    requires forall c :: c in xs ==> ClientBreaks(rows, c) == ClientBreaks(other, c)
    ensures multiset(Joined(rows, xs)) == multiset(Joined(other, ys))
  {
    if xs == [] {
      SameSize(xs, ys);
    } else {
      var n := |xs| - 1;
      var before, after := WithoutOne(xs, ys);
      assert xs == xs[..n] + [xs[n]];
      hide Joined, ClientBreaks;
      SameBreaks(rows, other, xs[..n], before + after);
      JoinedSnoc(rows, xs[..n], xs[n]);
      TakenOut(other, before, xs[n], after);
    }
  }

  /** The whole result, breaks counted with their number, does not depend on the order of the rows, except for the
      order in which the clients are reported. */
  lemma ResultIgnoresOrder(rows: seq<LedgerRow>, other: seq<LedgerRow>)
    requires DistinctSeqs(rows) && DistinctSeqs(other) && forall r :: r in rows <==> r in other
    ensures |rows| == |other| && |Clients(rows)| == |Clients(other)|
    ensures multiset(Joined(rows, Clients(rows))) == multiset(Joined(other, Clients(other)))
  {
    RowsOnce(rows);
    RowsOnce(other);
    SameSize(rows, other);
    var xs, ys := Clients(rows), Clients(other);
    ClientsOnce(rows);
    ClientsOnce(other);
    forall c ensures (c in xs <==> c in ys) && ClientBreaks(rows, c) == ClientBreaks(other, c) {
      OrderIndependent(rows, other, c);
    }
    hide ClientBreaks, Clients, Joined, DistinctSeqs;
    SameSize(xs, ys);
    SameBreaks(rows, other, xs, ys);
  }

  lemma RowsOnce(rows: seq<LedgerRow>)
    requires DistinctSeqs(rows)
    ensures NoTwice(rows)
  {
  }

  // ---------------------------------------------------------------- what breaks mean

  function SumAmounts(chain: seq<LedgerRow>, n: nat): int
    requires n <= |chain|
  {
    if n == 0 then 0 else SumAmounts(chain, n - 1) + chain[n - 1].amount
  }

  function SumGaps(breaks: seq<LedgerBreak>): int {
    if breaks == [] then 0
    else SumGaps(breaks[..|breaks| - 1]) + breaks[|breaks| - 1].actual - breaks[|breaks| - 1].expected
  }

  lemma GapsStep(chain: seq<LedgerRow>, n: nat)
    requires n < |chain|
    ensures SumGaps(Breaks(chain, n + 1)) == SumGaps(Breaks(chain, n)) + chain[n].balance - ExpectedAt(chain, n)
  {
    var before, b := Breaks(chain, n), BreakAt(chain, n);
    assert (before + [b])[..|before|] == before;
    assert before + [] == before;
  }

  /** The last balance is the sum of the amounts and of what each break adds or takes away. */
  lemma {:induction false} BalanceConserved(chain: seq<LedgerRow>, n: nat)
    requires n <= |chain|
    ensures (if n == 0 then 0 else chain[n - 1].balance) == SumAmounts(chain, n) + SumGaps(Breaks(chain, n))
  {
    if n == 0 {
    } else {
      hide Breaks, SumGaps;
      BalanceConserved(chain, n - 1);
      GapsStep(chain, n - 1);
    }
  }

  lemma {:induction false} NoBreaks(chain: seq<LedgerRow>, n: nat)
    requires n <= |chain|
    ensures Breaks(chain, n) == [] <==> forall i :: 0 <= i < n ==> !Broken(chain, i)
  {
    if n == 0 {
    } else {
      NoBreaks(chain, n - 1);
    }
  }

  /** A chain has no break exactly when every balance is the sum of the amounts so far. */
  lemma {:induction false} UnbrokenIsPrefixSums(chain: seq<LedgerRow>, n: nat)
    requires n <= |chain|
    ensures Breaks(chain, n) == [] <==> forall i :: 0 <= i < n ==> chain[i].balance == SumAmounts(chain, i + 1)
  {
    if n == 0 {
    } else {
      UnbrokenIsPrefixSums(chain, n - 1);
      NoBreaks(chain, n);
      NoBreaks(chain, n - 1);
    }
  }

  lemma {:induction false} AllBreaksEmpty(rows: seq<LedgerRow>, clients: seq<string>, n: nat)
    requires n <= |clients|
    ensures AllBreaks(rows, clients, n) == [] <==> forall k :: 0 <= k < n ==> ClientBreaks(rows, clients[k]) == []
  {
    hide ClientBreaks;
    if n == 0 {
    } else {
      AllBreaksEmpty(rows, clients, n - 1);
    }
  }

  /** Every balance is the sum of the amounts up to and with its row. */
  ghost predicate PrefixSums(chain: seq<LedgerRow>) {
    forall i :: 0 <= i < |chain| ==> chain[i].balance == SumAmounts(chain, i + 1)
  }

  /** A ledger passes exactly when every client's balances are the prefix sums of its amounts. */
  lemma LedgerPasses(rows: seq<LedgerRow>)
    ensures AllBreaks(rows, Clients(rows), |Clients(rows)|) == [] <==>
            forall client :: client in Clients(rows) ==> PrefixSums(ChainOf(rows, client))
  {
    var clients := Clients(rows);
    AllBreaksEmpty(rows, clients, |clients|);
    hide Clients, ChainOf, AllBreaks;
    forall client | client in clients
      ensures ClientBreaks(rows, client) == [] <==> PrefixSums(ChainOf(rows, client))
    {
      UnbrokenIsPrefixSums(ChainOf(rows, client), |ChainOf(rows, client)|);
    }
    hide ClientBreaks, PrefixSums;
    assert forall k :: 0 <= k < |clients| ==> clients[k] in clients;
  }

  // ---------------------------------------------------------------- one wrong figure

  /** The breaks, when exactly the rows at the given positions are broken. */
  lemma {:induction false} BreaksAt(chain: seq<LedgerRow>, n: nat, k: nat, two: bool)
    requires n <= |chain| && k < |chain|
    requires forall i :: 0 <= i < n ==> (Broken(chain, i) <==> i == k || (two && i == k + 1))
    ensures Breaks(chain, n) == (if k < n then [BreakAt(chain, k)] else [])
                                + (if two && k + 1 < n then [BreakAt(chain, k + 1)] else [])
  {
    if n == 0 {
    } else {
      BreaksAt(chain, n - 1, k, two);
    }
  }

  /** A wrong balance in an unbroken chain shows at its row and at the row behind it, and nowhere else. */
  lemma WrongBalance(chain: seq<LedgerRow>, k: nat, balance: int)
    requires k < |chain| && Breaks(chain, |chain|) == [] && balance != chain[k].balance
    ensures var wrong := chain[k := chain[k].(balance := balance)];
            Breaks(wrong, |wrong|) == [BreakAt(wrong, k)] + if k + 1 < |chain| then [BreakAt(wrong, k + 1)] else []
  {
    var wrong := chain[k := chain[k].(balance := balance)];
    NoBreaks(chain, |chain|);
    forall i | 0 <= i < |wrong| ensures Broken(wrong, i) <==> i == k || i == k + 1 {
      assert !Broken(chain, i);
    }
    BreaksAt(wrong, |wrong|, k, true);
  }

  /** A wrong amount shows at its own row alone. */
  lemma WrongAmount(chain: seq<LedgerRow>, k: nat, amount: int)
    requires k < |chain| && Breaks(chain, |chain|) == [] && amount != chain[k].amount
    ensures var wrong := chain[k := chain[k].(amount := amount)]; Breaks(wrong, |wrong|) == [BreakAt(wrong, k)]
  {
    var wrong := chain[k := chain[k].(amount := amount)];
    NoBreaks(chain, |chain|);
    forall i | 0 <= i < |wrong| ensures Broken(wrong, i) <==> i == k {
      assert !Broken(chain, i);
    }
    BreaksAt(wrong, |wrong|, k, false);
  }
}
