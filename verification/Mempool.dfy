/** The mempool inventory: built in one batch by ParseTxns (mempool/collector.go) or one
    transaction at a time by TxHandler (mempool/monitor.go). Amounts are integer atoms. */
module Mempool {
  import opened Types

  datatype Kind = Regular | Ticket | Vote | Revocation | TSpend | TAdd | TreasuryBase

  /** What a vote decides on, and the ticket it spends. */
  datatype VoteInfo = VoteInfo(block: Hash, height: int, ticket: Hash)

  datatype Tx = Tx(hash: Hash, kind: Kind, totalOut: int, size: int, time: int, vote: Option<VoteInfo>)

  datatype BlockID = BlockID(hash: Hash, height: int, time: int)

  /** The parts of MempoolInfo that both paths maintain. */
  datatype Info = Info(
    invRegular: set<Hash>, invStake: set<Hash>,
    numRegular: nat, numTickets: nat, numVotes: nat, numRevokes: nat,
    totalOut: int, totalSize: int,
    votedTickets: set<Hash>, ticketsVoted: nat, tallied: nat, likelyCount: nat)

  const EMPTY_INFO := Info({}, {}, 0, 0, 0, 0, 0, 0, {}, 0, 0, 0)

  /** The vote is on the validity of the last block. */
  predicate ForLastBlock(last: BlockID, tx: Tx) {
    tx.kind.Vote? && tx.vote.Some? && tx.vote.value.block == last.hash
  }

  function Known(info: Info, tx: Tx): bool {
    if tx.kind.Regular? then tx.hash in info.invRegular else tx.hash in info.invStake
  }

  /** Adding the totals of a transaction, and one to the likely mineable ones if it is. */
  function WithTotals(info: Info, tx: Tx, likely: bool): Info {
    info.(totalOut := info.totalOut + tx.totalOut, totalSize := info.totalSize + tx.size,
          likelyCount := info.likelyCount + if likely then 1 else 0)
  }

  /** Recording a vote: it is tallied only if it is for the last block and its ticket has not
      voted yet. */
  function WithVote(last: BlockID, info: Info, tx: Tx): Info {
    var seen := info.(invStake := info.invStake + {tx.hash}, numVotes := info.numVotes + 1);
    if ForLastBlock(last, tx) && tx.vote.value.ticket !in info.votedTickets then
      WithTotals(seen.(votedTickets := info.votedTickets + {tx.vote.value.ticket},
                       ticketsVoted := info.ticketsVoted + 1, tallied := info.tallied + 1), tx, true)
    else WithTotals(seen, tx, false)
  }

  /** One turn of the loop of ParseTxns. */
  function Batched(last: BlockID, info: Info, tx: Tx): Info {
    if Known(info, tx) then info else
    match tx.kind
    case Regular =>
      WithTotals(info.(invRegular := info.invRegular + {tx.hash}, numRegular := info.numRegular + 1), tx, true)
    case Ticket =>
      WithTotals(info.(invStake := info.invStake + {tx.hash}, numTickets := info.numTickets + 1), tx, true)
    case Vote =>
      if tx.vote.None? then info.(invStake := info.invStake + {tx.hash}, numVotes := info.numVotes + 1)
      else WithVote(last, info, tx)
    case Revocation =>
      WithTotals(info.(invStake := info.invStake + {tx.hash}, numRevokes := info.numRevokes + 1), tx, true)
    case TSpend => WithTotals(info.(invStake := info.invStake + {tx.hash}), tx, true)
    case TAdd => WithTotals(info.(invStake := info.invStake + {tx.hash}), tx, true)
    case TreasuryBase => WithTotals(info.(invStake := info.invStake + {tx.hash}), tx, true)
  }

  /** TxHandler dereferences the vote information of a new vote, decodable or not. */
  predicate Panics(last: BlockID, info: Info, tx: Tx) {
    tx.time >= last.time && !Known(info, tx) && tx.kind.Vote? && tx.vote.None?
  }

  /** The inventory update of TxHandler. */
  function Handled(last: BlockID, info: Info, tx: Tx): Info {
    if tx.time < last.time || Known(info, tx) then info else
    match tx.kind
    case Regular =>
      WithTotals(info.(invRegular := info.invRegular + {tx.hash}, numRegular := info.numRegular + 1), tx, true)
    case Ticket =>
      WithTotals(info.(invStake := info.invStake + {tx.hash}, numTickets := info.numTickets + 1), tx, true)
    case Vote =>
      if tx.vote.None? || tx.vote.value.height > last.height then info else WithVote(last, info, tx)
    case Revocation =>
      WithTotals(info.(invStake := info.invStake + {tx.hash}, numRevokes := info.numRevokes + 1), tx, true)
    case TSpend => WithTotals(info.(invStake := info.invStake + {tx.hash}), tx, false)
    case TAdd => WithTotals(info.(invStake := info.invStake + {tx.hash}), tx, true)
    case TreasuryBase => WithTotals(info, tx, true)
  }

  // ---- The order-free meaning of an inventory ----

  /** A vote without vote information. ParseTxns lists it and leaves it out of the totals. */
  predicate Undecodable(tx: Tx) {
    tx.kind.Vote? && tx.vote.None?
  }

  datatype Measure = CountOf(kind: Kind) | NonVotes | Amounts | Sizes

  function Weigh(m: Measure, tx: Tx): int {
    match m
    case CountOf(k) => if tx.kind == k then 1 else 0
    case NonVotes => if tx.kind.Vote? then 0 else 1
    case Amounts => if Undecodable(tx) then 0 else tx.totalOut
    case Sizes => if Undecodable(tx) then 0 else tx.size
  }

  function Total(m: Measure, txs: seq<Tx>): int {
    if txs == [] then 0 else Total(m, txs[..|txs| - 1]) + Weigh(m, txs[|txs| - 1])
  }

  lemma TotalSnoc(m: Measure, txs: seq<Tx>, tx: Tx)
    ensures Total(m, txs + [tx]) == Total(m, txs) + Weigh(m, tx)
  {
    assert (txs + [tx])[..|txs|] == txs;
  }

  lemma {:induction false} TotalConcat(m: Measure, a: seq<Tx>, b: seq<Tx>)
    ensures Total(m, a + b) == Total(m, a) + Total(m, b)
  {
    if b == [] {
      assert a + b == a;
    } else {
      TotalConcat(m, a, b[..|b| - 1]);
      TotalSnoc(m, a + b[..|b| - 1], b[|b| - 1]);
      assert a + b == a + b[..|b| - 1] + [b[|b| - 1]];
    }
  }

  lemma TakeOut(m: Measure, txs: seq<Tx>, tx: Tx) returns (rest: seq<Tx>)
    requires tx in multiset(txs)
    ensures |rest| == |txs| - 1 && multiset(rest) == multiset(txs) - multiset{tx}
    ensures Total(m, txs) == Total(m, rest) + Weigh(m, tx)
  {
    assert tx in txs;
    var i :| 0 <= i < |txs| && txs[i] == tx;
    var l, r := txs[..i], txs[i + 1..];
    rest := l + r;
    assert txs == l + [tx] + r;
    TotalConcat(m, l + [tx], r);
    TotalSnoc(m, l, tx);
    TotalConcat(m, l, r);
  }

  /** Totals do not depend on the order of arrival. */
  lemma {:induction false} TotalSame(m: Measure, a: seq<Tx>, b: seq<Tx>)
    requires multiset(a) == multiset(b)
    ensures Total(m, a) == Total(m, b)
    decreases |a|
  {
    assert |a| == |multiset(a)| == |multiset(b)| == |b|;
    if a != [] {
      assert a[0] in multiset(a);
      var resta := TakeOut(m, a, a[0]);
      var restb := TakeOut(m, b, a[0]);
      TotalSame(m, resta, restb);
    }
  }

  datatype Selection = RegularTree | StakeTree | VotingTickets

  /** What a transaction adds to the regular hashes, to the stake hashes, or to the tickets that
      have voted on the last block. */
  function Pick(last: BlockID, s: Selection, tx: Tx): set<Hash> {
    match s
    case RegularTree => if tx.kind.Regular? then {tx.hash} else {}
    case StakeTree => if tx.kind.Regular? then {} else {tx.hash}
    case VotingTickets => if ForLastBlock(last, tx) then {tx.vote.value.ticket} else {}
  }

  function Collect(last: BlockID, s: Selection, txs: seq<Tx>): set<Hash> {
    if txs == [] then {} else Collect(last, s, txs[..|txs| - 1]) + Pick(last, s, txs[|txs| - 1])
  }

  lemma CollectSnoc(last: BlockID, s: Selection, txs: seq<Tx>, tx: Tx)
    ensures Collect(last, s, txs + [tx]) == Collect(last, s, txs) + Pick(last, s, tx)
  {
    assert (txs + [tx])[..|txs|] == txs;
  }

  predicate Picked(last: BlockID, s: Selection, txs: seq<Tx>, h: Hash) {
    exists tx :: tx in txs && h in Pick(last, s, tx)
  }

  lemma {:induction false} CollectIs(last: BlockID, s: Selection, txs: seq<Tx>, h: Hash)
    ensures h in Collect(last, s, txs) <==> Picked(last, s, txs, h)
  {
    if txs != [] {
      var init, tx := txs[..|txs| - 1], txs[|txs| - 1];
      CollectIs(last, s, init, h);
      assert txs == init + [tx] && tx in txs;
      if Picked(last, s, init, h) {
        var x :| x in init && h in Pick(last, s, x);
        assert x in txs;
      }
    }
  }

  /** Nor do the collected sets. */
  lemma CollectSame(last: BlockID, s: Selection, a: seq<Tx>, b: seq<Tx>)
    requires multiset(a) == multiset(b)
    ensures Collect(last, s, a) == Collect(last, s, b)
  {
    forall tx ensures tx in a <==> tx in b {
      assert tx in a <==> tx in multiset(a);
      assert tx in b <==> tx in multiset(b);
    }
    forall h ensures h in Collect(last, s, a) <==> h in Collect(last, s, b) {
      CollectIs(last, s, a, h);
      CollectIs(last, s, b, h);
      assert Picked(last, s, a, h) <==> Picked(last, s, b, h);
    }
  }

  predicate SetsRight(info: Info, last: BlockID, txs: seq<Tx>) {
    && info.invRegular == Collect(last, RegularTree, txs)
    && info.invStake == Collect(last, StakeTree, txs)
    && info.votedTickets == Collect(last, VotingTickets, txs)
  }

  predicate CountsRight(info: Info, txs: seq<Tx>) {
    && info.numRegular == Total(CountOf(Regular), txs) && info.numTickets == Total(CountOf(Ticket), txs)
    && info.numVotes == Total(CountOf(Vote), txs) && info.numRevokes == Total(CountOf(Revocation), txs)
  }

  predicate TotalsRight(info: Info, txs: seq<Tx>) {
    info.totalOut == Total(Amounts, txs) && info.totalSize == Total(Sizes, txs)
  }

  /** Each ticket's vote is tallied once, and counts as likely mineable once. */
  predicate TallyRight(info: Info, txs: seq<Tx>) {
    && info.ticketsVoted == |info.votedTickets| == info.tallied
    && info.likelyCount == Total(NonVotes, txs) + |info.votedTickets|
  }

  /** The inventory says of `txs` what it should, without a trace of their order. */
  predicate Describes(info: Info, last: BlockID, txs: seq<Tx>) {
    SetsRight(info, last, txs) && CountsRight(info, txs) && TotalsRight(info, txs) && TallyRight(info, txs)
  }

  /** A description is complete: it leaves no freedom. */
  lemma DescribesUnique(a: Info, b: Info, last: BlockID, txs: seq<Tx>)
    requires Describes(a, last, txs) && Describes(b, last, txs)
    ensures a == b
  {
  }

  /** Regular, ticket, vote, revocation and treasury-add transactions; votes are decodable and
      not for a future block, and nothing is older than the last block. */
  predicate TxOk(last: BlockID, tx: Tx) {
    && !tx.kind.TSpend? && !tx.kind.TreasuryBase?
    && (tx.kind.Vote? ==> tx.vote.Some? && tx.vote.value.height <= last.height)
    && tx.time >= last.time
  }

  function HashAt(txs: seq<Tx>, i: nat): Hash
    requires i < |txs|
  {
    txs[i].hash
  }

  /** No two transactions have one hash. Nothing else is asked of what is collected. */
  predicate Distinct(txs: seq<Tx>) {
    forall i, j {:trigger HashAt(txs, i), HashAt(txs, j)} ::
      0 <= i < |txs| && 0 <= j < |txs| && HashAt(txs, i) == HashAt(txs, j) ==> i == j
  }

  /** Everything that arrives is treated alike by both paths. */
  predicate ArrivalsOk(last: BlockID, txs: seq<Tx>) {
    forall tx :: tx in txs ==> TxOk(last, tx)
  }

  /** Exactly when the two paths treat a new transaction alike. */
  lemma PathsAgreeIff(last: BlockID, info: Info, tx: Tx)
    requires !Known(info, tx)
    ensures Batched(last, info, tx) == Handled(last, info, tx) <==> TxOk(last, tx)
  {
    if tx.kind.TreasuryBase? || tx.kind.Vote? || tx.time < last.time {
      assert tx.hash in Batched(last, info, tx).invRegular + Batched(last, info, tx).invStake;
    }
  }

  /** A treasury spend counts as likely mineable in a batch and does not on arrival. */
  lemma PathsDisagree(last: BlockID, hash: Hash)
    ensures var tx := Tx(hash, TSpend, 1, 1, last.time, None);
            Batched(last, EMPTY_INFO, tx).likelyCount == 1 && Handled(last, EMPTY_INFO, tx).likelyCount == 0
  {
  }

  /** A new hash is new to the inventory. */
  lemma NewHash(last: BlockID, txs: seq<Tx>, tx: Tx, info: Info)
    requires SetsRight(info, last, txs) && Distinct(txs + [tx])
    ensures !Known(info, tx)
  {
    var all := txs + [tx];
    assert all[|txs|] == tx && tx in all;
    var s := if tx.kind.Regular? then RegularTree else StakeTree;
    CollectIs(last, s, txs, tx.hash);
    forall i | 0 <= i < |txs| ensures txs[i].hash != tx.hash {
      assert HashAt(all, i) == txs[i].hash && HashAt(all, |txs|) == tx.hash;
    }
    assert !Picked(last, s, txs, tx.hash);
  }

  lemma SetsStep(last: BlockID, txs: seq<Tx>, tx: Tx, info: Info)
    requires SetsRight(info, last, txs) && !Known(info, tx)
    ensures SetsRight(Batched(last, info, tx), last, txs + [tx])
  {
    CollectSnoc(last, RegularTree, txs, tx);
    CollectSnoc(last, StakeTree, txs, tx);
    CollectSnoc(last, VotingTickets, txs, tx);
  }

  lemma CountsStep(last: BlockID, txs: seq<Tx>, tx: Tx, info: Info)
    requires CountsRight(info, txs) && !Known(info, tx)
    ensures CountsRight(Batched(last, info, tx), txs + [tx])
  {
    TotalSnoc(CountOf(Regular), txs, tx);
    TotalSnoc(CountOf(Ticket), txs, tx);
    TotalSnoc(CountOf(Vote), txs, tx);
    TotalSnoc(CountOf(Revocation), txs, tx);
    match tx.kind {
      case Regular =>
      case Ticket =>
      case Vote =>
      case Revocation =>
      case TSpend =>
      case TAdd =>
      case TreasuryBase =>
    }
  }

  lemma TotalsStep(last: BlockID, txs: seq<Tx>, tx: Tx, info: Info)
    requires TotalsRight(info, txs) && !Known(info, tx)
    ensures TotalsRight(Batched(last, info, tx), txs + [tx])
  {
    TotalSnoc(Amounts, txs, tx);
    TotalSnoc(Sizes, txs, tx);
    match tx.kind {
      case Regular =>
      case Ticket =>
      case Vote =>
      case Revocation =>
      case TSpend =>
      case TAdd =>
      case TreasuryBase =>
    }
  }

  lemma TallyStep(last: BlockID, txs: seq<Tx>, tx: Tx, info: Info)
    requires TallyRight(info, txs) && !Known(info, tx)
    ensures TallyRight(Batched(last, info, tx), txs + [tx])
  {
    TotalSnoc(NonVotes, txs, tx);
    match tx.kind {
      case Regular =>
      case Ticket =>
      case Vote =>
      case Revocation =>
      case TSpend =>
      case TAdd =>
      case TreasuryBase =>
    }
  }

  /** The batch path, given one more transaction, describes one more transaction; the
      incremental one does the same exactly when the transaction is one it treats alike. */
  lemma StepDescribes(last: BlockID, txs: seq<Tx>, tx: Tx, info: Info)
    requires Describes(info, last, txs) && Distinct(txs + [tx])
    ensures Batched(last, info, tx) == Handled(last, info, tx) <==> TxOk(last, tx)
    ensures Describes(Batched(last, info, tx), last, txs + [tx])
  {
    NewHash(last, txs, tx, info);
    PathsAgreeIff(last, info, tx);
    SetsStep(last, txs, tx, info);
    CountsStep(last, txs, tx, info);
    TotalsStep(last, txs, tx, info);
    TallyStep(last, txs, tx, info);
  }

  lemma PrefixDistinct(txs: seq<Tx>, n: nat)
    requires Distinct(txs) && n <= |txs|
    ensures Distinct(txs[..n])
  {
    forall i, j | 0 <= i < n && 0 <= j < n && HashAt(txs[..n], i) == HashAt(txs[..n], j) ensures i == j {
      assert HashAt(txs, i) == HashAt(txs, j);
    }
  }

  /** Being distinct does not depend on order. */
  lemma DistinctSame(a: seq<Tx>, b: seq<Tx>)
    requires Distinct(a) && multiset(a) == multiset(b)
    ensures Distinct(b)
  {
    forall i, j | 0 <= i < |b| && 0 <= j < |b| && HashAt(b, i) == HashAt(b, j) ensures i == j {
      SameHashSameTx(a, b, i, j);
      OnceMeansOne(a, b[i]);
      TwiceMeansTwo(b, i, j);
    }
  }

  lemma SameHashSameTx(a: seq<Tx>, b: seq<Tx>, i: nat, j: nat)
    requires Distinct(a) && multiset(a) == multiset(b) && i < |b| && j < |b| && b[i].hash == b[j].hash
    ensures b[i] == b[j]
  {
    assert b[i] in multiset(b) && b[j] in multiset(b);
    assert b[i] in multiset(a) && b[j] in multiset(a);
    var k :| 0 <= k < |a| && a[k] == b[i];
    var l :| 0 <= l < |a| && a[l] == b[j];
    assert HashAt(a, k) == HashAt(a, l);
  }

  lemma TwiceMeansTwo(b: seq<Tx>, i: nat, j: nat)
    requires i < |b| && j < |b| && b[i] == b[j]
    ensures i != j ==> multiset(b)[b[i]] >= 2
  {
    var l, h := if i < j then i else j, if i < j then j else i;
    assert b == b[..h] + [b[h]] + b[h + 1..];
    if l < h {
      assert b[..h][l] in multiset(b[..h]);
    }
  }

  lemma OnceMeansOne(a: seq<Tx>, tx: Tx)
    requires Distinct(a)
    ensures multiset(a)[tx] <= 1
  {
    if tx in a {
      var k :| 0 <= k < |a| && a[k] == tx;
      assert a == a[..k] + [a[k]] + a[k + 1..];
      forall l | 0 <= l < |a| && a[l] == tx ensures l == k {
        assert HashAt(a, l) == HashAt(a, k);
      }
      assert tx !in a[..k] && tx !in a[k + 1..];
      assert multiset(a[..k])[tx] == 0 && multiset(a[k + 1..])[tx] == 0;
    }
  }

  /** What an inventory describes does not depend on order. */
  lemma DescribesSame(info: Info, last: BlockID, a: seq<Tx>, b: seq<Tx>)
    requires Describes(info, last, a) && multiset(a) == multiset(b)
    ensures Describes(info, last, b)
  {
    CollectSame(last, RegularTree, a, b);
    CollectSame(last, StakeTree, a, b);
    CollectSame(last, VotingTickets, a, b);
    TotalSame(CountOf(Regular), a, b);
    TotalSame(CountOf(Ticket), a, b);
    TotalSame(CountOf(Vote), a, b);
    TotalSame(CountOf(Revocation), a, b);
    TotalSame(NonVotes, a, b);
    TotalSame(Amounts, a, b);
    TotalSame(Sizes, a, b);
  }

  /** What is said of one transaction: its hash in its tree, one of its kind, its amount and its
      size, and a vote on the last block by its ticket. */
  lemma OneTransaction(last: BlockID, tx: Tx, info: Info)
    requires Describes(info, last, [tx])
    ensures info.invRegular == (if tx.kind.Regular? then {tx.hash} else {})
    ensures info.invStake == (if tx.kind.Regular? then {} else {tx.hash})
    ensures info.numRegular == (if tx.kind.Regular? then 1 else 0) && info.numTickets == (if tx.kind.Ticket? then 1 else 0)
    ensures info.numVotes == (if tx.kind.Vote? then 1 else 0) && info.numRevokes == (if tx.kind.Revocation? then 1 else 0)
    ensures !(tx.kind.Vote? && tx.vote.None?) ==> info.totalOut == tx.totalOut && info.totalSize == tx.size
    ensures tx.kind.Vote? && tx.vote.None? ==> info.totalOut == 0 && info.totalSize == 0
    ensures var counts := tx.kind.Vote? && tx.vote.Some? && tx.vote.value.block == last.hash;
            && info.votedTickets == (if counts then {tx.vote.value.ticket} else {})
            && info.ticketsVoted == info.tallied == (if counts then 1 else 0)
            && info.likelyCount == (if tx.kind.Vote? && !counts then 0 else 1)
  {
    assert [tx] == [] + [tx];
    TotalsOfOne(tx);
    CollectSnoc(last, RegularTree, [], tx);
    CollectSnoc(last, StakeTree, [], tx);
    CollectSnoc(last, VotingTickets, [], tx);
  }

  lemma TotalsOfOne(tx: Tx)
    ensures forall m :: Total(m, [tx]) == Weigh(m, tx)
  {
    forall m ensures Total(m, [tx]) == Weigh(m, tx) {
      TotalSnoc(m, [], tx);
      assert [] + [tx] == [tx];
    }
  }

  // ---- The batch path ----

  /** One turn of the loop of ParseTxns, as the code takes it. */
  method ParseOne(info: Info, tx: Tx, last: BlockID) returns (next: Info)
    ensures next == Batched(last, info, tx)
    ensures tx.hash in (if tx.kind.Regular? then info.invRegular else info.invStake) ==> next == info
  {
    next := info;
    var likelyMineable := true;
    if tx.kind.Regular? {
      if tx.hash in info.invRegular {
        return;
      }
      next := next.(invRegular := info.invRegular + {tx.hash}, numRegular := info.numRegular + 1);
    } else {
      if tx.hash in info.invStake {
        return;
      }
      next := next.(invStake := info.invStake + {tx.hash});
      match tx.kind {
        case Ticket => next := next.(numTickets := info.numTickets + 1);
        case Vote =>
          next := next.(numVotes := info.numVotes + 1);
          if tx.vote.None? {
            return;
          }
          var ticket := tx.vote.value.ticket;
          if tx.vote.value.block == last.hash && ticket !in next.votedTickets {
            next := next.(votedTickets := next.votedTickets + {ticket},
                          ticketsVoted := next.ticketsVoted + 1, tallied := next.tallied + 1);
          } else {
            likelyMineable := false;
          }
        case Revocation => next := next.(numRevokes := info.numRevokes + 1);
        case _ =>
      }
    }
    if likelyMineable {
      next := next.(likelyCount := next.likelyCount + 1);
    }
    next := next.(totalOut := next.totalOut + tx.totalOut, totalSize := next.totalSize + tx.size);
  }

  function Batch(last: BlockID, txs: seq<Tx>): Info {
    if txs == [] then EMPTY_INFO else Batched(last, Batch(last, txs[..|txs| - 1]), txs[|txs| - 1])
  }

  lemma BatchSnoc(last: BlockID, txs: seq<Tx>, tx: Tx)
    ensures Batch(last, txs + [tx]) == Batched(last, Batch(last, txs), tx)
  {
    assert (txs + [tx])[..|txs|] == txs;
  }

  /** A batch describes what it was built from. */
  lemma {:induction false} BatchDescribes(last: BlockID, txs: seq<Tx>)
    requires Distinct(txs)
    ensures Describes(Batch(last, txs), last, txs)
  {
    if txs != [] {
      var init, tx := txs[..|txs| - 1], txs[|txs| - 1];
      assert txs == init + [tx];
      PrefixDistinct(txs, |txs| - 1);
      BatchDescribes(last, init);
      StepDescribes(last, init, tx, Batch(last, init));
    }
  }

  /** ParseTxns. It sorts its input by time first; `txs` is the sorted sequence. */
  method ParseTxns(txs: seq<Tx>, last: BlockID) returns (info: Info)
    ensures info == Batch(last, txs)
    ensures Distinct(txs) ==> Describes(info, last, txs)
  {
    info := EMPTY_INFO;
    for i := 0 to |txs|
      invariant info == Batch(last, txs[..i])
    {
      BatchSnoc(last, txs[..i], txs[i]);
      assert txs[..i + 1] == txs[..i] + [txs[i]];
      info := ParseOne(info, txs[i], last);
    }
    assert txs[..|txs|] == txs;
    if Distinct(txs) {
      BatchDescribes(last, txs);
    }
  }

  class MempoolMonitor {
    var lastBlock: BlockID
    var inventory: Info

    constructor ()
      ensures inventory == EMPTY_INFO
    {
      lastBlock, inventory := BlockID(ZERO_HASH, 0, 0), EMPTY_INFO;
    }

    /** Refresh with what was collected: the inventory starts over from a batch, on a new last
        block. */
    method Refresh(txs: seq<Tx>, last: BlockID)
      modifies this
      ensures lastBlock == last && inventory == Batch(last, txs)
      ensures Distinct(txs) ==> Describes(inventory, last, txs)
    {
      var info := ParseTxns(txs, last);
      lastBlock, inventory := last, info;
    }

    /** TxHandler. */
    method TxHandler(tx: Tx) returns (panicked: bool)
      modifies this`inventory
      ensures inventory == Handled(lastBlock, old(inventory), tx)
      ensures tx.time < lastBlock.time ==> inventory == old(inventory)
      ensures tx.hash in (if tx.kind.Regular? then old(inventory).invRegular else old(inventory).invStake) ==> inventory == old(inventory)
      ensures tx.kind.Vote? && (tx.vote.None? || tx.vote.value.height > lastBlock.height) ==> inventory == old(inventory)
      ensures panicked <==> Panics(lastBlock, old(inventory), tx)
    {
      panicked := false;
      if tx.time < lastBlock.time {
        return;
      }
      var exists_ := if tx.kind.Regular? then tx.hash in inventory.invRegular else tx.hash in inventory.invStake;
      if exists_ {
        return;
      }
      var likelyMineable := true;
      match tx.kind {
        case Regular =>
          inventory := inventory.(invRegular := inventory.invRegular + {tx.hash}, numRegular := inventory.numRegular + 1);
        case Ticket =>
          inventory := inventory.(invStake := inventory.invStake + {tx.hash}, numTickets := inventory.numTickets + 1);
        case Vote =>
          if tx.vote.None? {
            panicked := true;
            return;
          }
          if tx.vote.value.height > lastBlock.height {
            return;
          }
          inventory := inventory.(invStake := inventory.invStake + {tx.hash}, numVotes := inventory.numVotes + 1);
          var ticket := tx.vote.value.ticket;
          if tx.vote.value.block == lastBlock.hash && ticket !in inventory.votedTickets {
            inventory := inventory.(votedTickets := inventory.votedTickets + {ticket},
                                    ticketsVoted := inventory.ticketsVoted + 1, tallied := inventory.tallied + 1);
          } else {
            likelyMineable := false;
          }
        case Revocation =>
          inventory := inventory.(invStake := inventory.invStake + {tx.hash}, numRevokes := inventory.numRevokes + 1);
        case TSpend =>
          inventory := inventory.(invStake := inventory.invStake + {tx.hash});
          likelyMineable := false;
        case TAdd =>
          inventory := inventory.(invStake := inventory.invStake + {tx.hash});
        case TreasuryBase =>
      }
      inventory := inventory.(totalOut := inventory.totalOut + tx.totalOut, totalSize := inventory.totalSize + tx.size);
      if likelyMineable {
        inventory := inventory.(likelyCount := inventory.likelyCount + 1);
      }
    }
  }

  function HandledAll(last: BlockID, info: Info, arrivals: seq<Tx>): Info
    decreases |arrivals|
  {
    if arrivals == [] then info else HandledAll(last, Handled(last, info, arrivals[0]), arrivals[1..])
  }

  lemma ArrivalsSplit(last: BlockID, before: seq<Tx>, arrivals: seq<Tx>)
    requires arrivals != [] && ArrivalsOk(last, arrivals)
    ensures TxOk(last, arrivals[0]) && ArrivalsOk(last, arrivals[1..])
    ensures before + arrivals == before + [arrivals[0]] + arrivals[1..]
  {
    assert forall tx :: tx in arrivals[1..] ==> tx in arrivals;
  }

  lemma FirstDescribes(last: BlockID, before: seq<Tx>, arrivals: seq<Tx>, info: Info)
    requires arrivals != [] && Distinct(before + arrivals) && TxOk(last, arrivals[0]) && Describes(info, last, before)
    ensures Describes(Handled(last, info, arrivals[0]), last, before + [arrivals[0]])
  {
    PrefixDistinct(before + arrivals, |before| + 1);
    assert (before + arrivals)[..|before| + 1] == before + [arrivals[0]];
    StepDescribes(last, before, arrivals[0], info);
  }

  /** Handling transactions one at a time on top of a described inventory: whatever their
      order, and whatever the inventory started from, the result describes `all` of them. */
  lemma {:induction false} HandledDescribes(last: BlockID, before: seq<Tx>, arrivals: seq<Tx>, all: seq<Tx>, info: Info)
    requires all == before + arrivals && Distinct(all) && ArrivalsOk(last, arrivals) && Describes(info, last, before)
    ensures Describes(HandledAll(last, info, arrivals), last, all)
    decreases |arrivals|
  {
    if arrivals == [] {
      assert all == before;
    } else {
      var next := before + [arrivals[0]];
      ArrivalsSplit(last, before, arrivals);
      FirstDescribes(last, before, arrivals, info);
      HandledDescribes(last, next, arrivals[1..], all, Handled(last, info, arrivals[0]));
    }
  }

  /** Transactions as they arrive. */
  method HandleAll(monitor: MempoolMonitor, arrivals: seq<Tx>)
    modifies monitor`inventory
    ensures monitor.inventory == HandledAll(monitor.lastBlock, old(monitor.inventory), arrivals)
    decreases |arrivals|
  {
    if arrivals != [] {
      var _ := monitor.TxHandler(arrivals[0]);
      HandleAll(monitor, arrivals[1..]);
    }
  }

  /** Incremental equals batch: a monitor refreshed with any transactions, of whatever kind and
      age, that then handles others as they arrive has the inventory that one batch of all of them gives, for any
      order of arrival and any order of the batch. */
  method BothPaths(monitor: MempoolMonitor, last: BlockID, collected: seq<Tx>, arrivals: seq<Tx>, sorted: seq<Tx>)
    returns (batch: Info)
    requires multiset(collected + arrivals) == multiset(sorted) && Distinct(sorted) && ArrivalsOk(last, arrivals)
    modifies monitor
    ensures Describes(batch, last, sorted)
    ensures monitor.inventory == batch
  {
    DistinctSame(sorted, collected + arrivals);
    PrefixDistinct(collected + arrivals, |collected|);
    assert (collected + arrivals)[..|collected|] == collected;
    monitor.Refresh(collected, last);
    HandledDescribes(last, collected, arrivals, collected + arrivals, monitor.inventory);
    HandleAll(monitor, arrivals);
    batch := ParseTxns(sorted, last);
    DescribesSame(batch, last, sorted, collected + arrivals);
    DescribesUnique(monitor.inventory, batch, last, collected + arrivals);
  }
}
