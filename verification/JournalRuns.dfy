/** The accounting equation over every run of `post_entry`, refused posts included. */
module JournalRuns {
  import opened Binary
  import opened Sequences
  import opened JournalEntries
  import opened Journal

  /** What a list of postings puts on one account. */
  function PostedTo(ps: seq<Posting>, a: StandardAccount): nat {
    if |ps| == 0 then 0 else (if ps[0].account == a then ps[0].amountSats else 0) + PostedTo(ps[1..], a)
  }

  const POSTING_LIMIT: nat := 0x8000_0000_0000_0000

  /** Totals small enough for `n` postings of at most 2^64 - 1 each, and a net that is their exact
      difference. */
  predicate SoundBalance(bal: AccountBalance, n: nat) {
    && bal.totalDebits <= n * 0xFFFF_FFFF_FFFF_FFFF
    && bal.totalCredits <= n * 0xFFFF_FFFF_FFFF_FFFF
    && bal.net == bal.totalDebits - bal.totalCredits
  }

  predicate Sound(b: Balances, n: nat) {
    forall a :: a in b ==> SoundBalance(b[a], n)
  }

  /** `bal` plus the amounts posted to either side. */
  predicate Grown(bal: AccountBalance, bal': AccountBalance, debits: nat, credits: nat) {
    bal'.totalDebits == bal.totalDebits + debits && bal'.totalCredits == bal.totalCredits + credits
  }

  lemma PostOneSound(b: Balances, p: Posting, side: Side, n: nat)
    requires n < POSTING_LIMIT && Sound(b, n)
    ensures var (b', e) := PostOne(b, p, side); e.None? && Sound(b', n + 1)
  {
    assert SoundBalance(b[p.account], n);
  }

  /** A list of postings never overflows and keeps nets exact. */
  lemma {:induction false} PostAllSound(b: Balances, ps: seq<Posting>, side: Side, n: nat)
    requires n + |ps| <= POSTING_LIMIT && Sound(b, n)
    ensures var (b', e) := PostAll(b, ps, side); e.None? && Sound(b', n + |ps|)
    decreases |ps|
  {
    if |ps| > 0 {
      PostOneSound(b, ps[0], side, n);
      PostAllSound(PostOne(b, ps[0], side).0, ps[1..], side, n + 1);
    }
  }

  lemma PostOneGrows(b: Balances, p: Posting, side: Side, a: StandardAccount)
    requires PostOne(b, p, side).1.None?
    ensures var x := if p.account == a then p.amountSats else 0;
      Grown(b[a], PostOne(b, p, side).0[a], if side == DebitSide then x else 0, if side == CreditSide then x else 0)
  {
  }

  /** When nothing overflows, each total grows by what is posted to it. */
  lemma {:induction false} PostAllGrows(b: Balances, ps: seq<Posting>, side: Side, a: StandardAccount)
    requires PostAll(b, ps, side).1.None?
    ensures var x := PostedTo(ps, a);
      Grown(b[a], PostAll(b, ps, side).0[a], if side == DebitSide then x else 0, if side == CreditSide then x else 0)
    decreases |ps|
  {
    if |ps| > 0 {
      PostOneGrows(b, ps[0], side, a);
      PostAllGrows(PostOne(b, ps[0], side).0, ps[1..], side, a);
    }
  }

  /** What an accepted or sign-refused entry does to the balances. */
  predicate Adds(b: Balances, e: JournalEntry, b': Balances) {
    forall a :: a in b ==> Grown(b[a], b'[a], PostedTo(e.debits, a), PostedTo(e.credits, a))
  }

  lemma PostBothSound(b: Balances, e: JournalEntry, n: nat)
    requires n + |e.debits| + |e.credits| <= POSTING_LIMIT && Sound(b, n)
    ensures var (b', o) := PostBoth(b, e.debits, e.credits); o.None? && Sound(b', n + |e.debits| + |e.credits|)
  {
    PostAllSound(b, e.debits, DebitSide, n);
    PostAllSound(PostAll(b, e.debits, DebitSide).0, e.credits, CreditSide, n + |e.debits|);
  }

  lemma PostBothAdds(b: Balances, e: JournalEntry)
    requires PostBoth(b, e.debits, e.credits).1.None?
    ensures Adds(b, e, PostBoth(b, e.debits, e.credits).0)
  {
    var middle := PostAll(b, e.debits, DebitSide).0;
    var after := PostBoth(b, e.debits, e.credits).0;
    forall a | a in b
      ensures Grown(b[a], after[a], PostedTo(e.debits, a), PostedTo(e.credits, a))
    {
      PostAllGrows(b, e.debits, DebitSide, a);
      PostAllGrows(middle, e.credits, CreditSide, a);
    }
  }

  /** Everything a run needs to know about one post, with `n` postings applied before it; `reached` says
      whether it got as far as moving balances. */
  predicate PostFacts(s: JournalState, e: JournalEntry, t: JournalState, r: PostResult, n: nat, reached: bool) {
    if !reached then
      t == s && (r.Refused? ==> !r.error.BalanceOverflow? && !r.error.NegativeBalance?)
    else
      && Adds(s.balances, e, t.balances)
      && Sound(t.balances, n + |e.debits| + |e.credits|)
      && Sum(AmountOf, e.debits) == Sum(AmountOf, e.credits)
      && (r.Refused? ==> r.error == NegativeBalance && t.entries == s.entries && !SignsOk(t.balances))
      && (r.Posted? ==> t.entries == s.entries + [e] && SignsOk(t.balances))
  }

  lemma PostStep(sha: Bytes -> Digest, s: JournalState, e: JournalEntry, n: nat)
    requires Sound(s.balances, n)
    requires Reaches(sha, s, e) ==> n + |e.debits| + |e.credits| <= POSTING_LIMIT
    ensures PostFacts(s, e, Post(sha, s, e).0, Post(sha, s, e).1, n, Reaches(sha, s, e))
  {
    if Reaches(sha, s, e) {
      PostBothSound(s.balances, e, n);
      PostBothAdds(s.balances, e);
    }
  }

  /** One posting overflows exactly when its total no longer fits 128 bits, or the difference of the two
      totals, each read as a signed number, no longer does. */
  lemma PostingOverflow(b: Balances, p: Posting, side: Side)
    ensures var bal, limit := b[p.account], 0x1_0000_0000_0000_0000_0000_0000_0000_0000;
      var debits := bal.totalDebits + if side == DebitSide then p.amountSats else 0;
      var credits := bal.totalCredits + if side == CreditSide then p.amountSats else 0;
      var d, c := if 2 * debits < limit then debits else debits - limit, if 2 * credits < limit then credits else credits - limit;
      PostOne(b, p, side).1 ==
        if debits >= limit || credits >= limit || 2 * (d - c) >= limit || 2 * (d - c) < -limit
        then Some(BalanceOverflow(p.account)) else None
  {
  }

  // ---------------------------------------------------------------- totals over the chart

  function DebitsIn(b: Balances): StandardAccount -> int {
    (a: StandardAccount) => b[a].totalDebits
  }

  function CreditsIn(b: Balances): StandardAccount -> int {
    (a: StandardAccount) => b[a].totalCredits
  }

  function NetsIn(b: Balances): StandardAccount -> int {
    (a: StandardAccount) => b[a].net
  }

  function Postings(ps: seq<Posting>): StandardAccount -> int {
    (a: StandardAccount) => PostedTo(ps, a)
  }

  lemma {:induction false} SumPointwise(f: StandardAccount -> int, g: StandardAccount -> int, h: StandardAccount -> int, s: seq<StandardAccount>)
    requires forall a :: f(a) == g(a) + h(a)
    ensures Sum(f, s) == Sum(g, s) + Sum(h, s)
  {
    if |s| > 0 {
      SumPointwise(f, g, h, s[1..]);
    }
  }

  lemma {:induction false} SumZero(f: StandardAccount -> int, s: seq<StandardAccount>)
    requires forall i :: 0 <= i < |s| ==> f(s[i]) == 0
    ensures Sum(f, s) == 0
  {
    if |s| > 0 {
      SumZero(f, s[1..]);
    }
  }

  /** A list of the accounts, each once. */
  ghost predicate IsChart(chart: seq<StandardAccount>) {
    && (forall a :: a in chart)
    && (forall i, j :: 0 <= i < j < |chart| ==> chart[i] != chart[j])
  }

  lemma AllAccountsChart()
    ensures IsChart(ALL_ACCOUNTS)
  {
    forall a: StandardAccount ensures a in ALL_ACCOUNTS {
      AllAccountsListed(a);
    }
  }

  function OnlyAt(p: Posting): StandardAccount -> int {
    (a: StandardAccount) => if p.account == a then p.amountSats else 0
  }

  lemma {:induction false} OneAccount(p: Posting, chart: seq<StandardAccount>)
    requires IsChart(chart)
    ensures Sum(OnlyAt(p), chart) == p.amountSats
  {
    assert p.account in chart;
    var i :| 0 <= i < |chart| && chart[i] == p.account;
    SumWithout(OnlyAt(p), chart, i);
    SumZero(OnlyAt(p), Without(chart, i));
  }

  /** Every posting lands on exactly one account of the chart. */
  lemma {:induction false} PostedInTotal(ps: seq<Posting>, chart: seq<StandardAccount>)
    requires IsChart(chart)
    ensures Sum(Postings(ps), chart) == Sum(AmountOf, ps)
  {
    if |ps| == 0 {
      SumZero(Postings(ps), chart);
    } else {
      PostedInTotal(ps[1..], chart);
      SumPointwise(Postings(ps), OnlyAt(ps[0]), Postings(ps[1..]), chart);
      OneAccount(ps[0], chart);
    }
  }

  // ---------------------------------------------------------------- runs

  function RunPosts(sha: Bytes -> Digest, posts: seq<JournalEntry>): JournalState {
    if |posts| == 0 then EMPTY_JOURNAL else Post(sha, RunPosts(sha, posts[..|posts| - 1]), posts[|posts| - 1]).0
  }

  function ResultAt(sha: Bytes -> Digest, posts: seq<JournalEntry>, i: nat): PostResult
    requires i < |posts|
  {
    Post(sha, RunPosts(sha, posts[..i]), posts[i]).1
  }

  /** How many postings a run has moved balances with. */
  function Applied(sha: Bytes -> Digest, posts: seq<JournalEntry>): nat {
    if |posts| == 0 then 0
    else
      var n := |posts| - 1;
      Applied(sha, posts[..n]) +
      if Reaches(sha, RunPosts(sha, posts[..n]), posts[n]) then |posts[n].debits| + |posts[n].credits| else 0
  }

  lemma {:induction false} AppliedGrows(sha: Bytes -> Digest, posts: seq<JournalEntry>, i: nat)
    requires i <= |posts|
    ensures Applied(sha, posts[..i]) <= Applied(sha, posts)
  {
    if i < |posts| {
      AppliedGrows(sha, posts[..|posts| - 1], i);
      assert posts[..|posts| - 1][..i] == posts[..i];
    } else {
      assert posts[..i] == posts;
    }
  }

  function DebitsTo(a: StandardAccount): JournalEntry -> int {
    (e: JournalEntry) => PostedTo(e.debits, a)
  }

  function CreditsTo(a: StandardAccount): JournalEntry -> int {
    (e: JournalEntry) => PostedTo(e.credits, a)
  }

  /** Totals that are exactly the fold of a list of entries. */
  ghost predicate Folds(b: Balances, entries: seq<JournalEntry>) {
    forall a :: a in b ==>
      b[a].totalDebits == Sum(DebitsTo(a), entries) && b[a].totalCredits == Sum(CreditsTo(a), entries)
  }

  lemma FoldsAdd(b: Balances, entries: seq<JournalEntry>, e: JournalEntry, b': Balances)
    requires Folds(b, entries) && Adds(b, e, b')
    ensures Folds(b', entries + [e])
  {
    forall a | a in b'
      ensures b'[a].totalDebits == Sum(DebitsTo(a), entries + [e]) && b'[a].totalCredits == Sum(CreditsTo(a), entries + [e])
    {
      SumAppend(DebitsTo(a), entries, [e]);
      SumAppend(CreditsTo(a), entries, [e]);
    }
  }

  lemma FoldsSwap(b: Balances, x: seq<JournalEntry>, y: seq<JournalEntry>, e: JournalEntry)
    requires Folds(b, x + y + [e])
    ensures Folds(b, x + [e] + y)
  {
    forall a | a in b
      ensures b[a].totalDebits == Sum(DebitsTo(a), x + [e] + y) && b[a].totalCredits == Sum(CreditsTo(a), x + [e] + y)
    {
      SumSwap(DebitsTo(a), x, y, e);
      SumSwap(CreditsTo(a), x, y, e);
    }
  }

  lemma SumSwap(f: JournalEntry -> int, x: seq<JournalEntry>, y: seq<JournalEntry>, e: JournalEntry)
    ensures Sum(f, x + y + [e]) == Sum(f, x + [e] + y)
  {
    SumAppend(f, x + y, [e]);
    SumAppend(f, x, y);
    SumAppend(f, x + [e], y);
    SumAppend(f, x, [e]);
  }

  lemma {:induction false} RunSound(sha: Bytes -> Digest, posts: seq<JournalEntry>)
    requires Applied(sha, posts) <= POSTING_LIMIT
    ensures Sound(RunPosts(sha, posts).balances, Applied(sha, posts))
  {
    if |posts| > 0 {
      var n := |posts| - 1;
      RunSound(sha, posts[..n]);
      PostStep(sha, RunPosts(sha, posts[..n]), posts[n], Applied(sha, posts[..n]));
    }
  }

  lemma FoldStep(before: JournalState, e: JournalEntry, after: JournalState, stuck: seq<JournalEntry>)
    requires Folds(before.balances, before.entries + stuck)
    ensures Adds(before.balances, e, after.balances) && after.entries == before.entries ==> Folds(after.balances, after.entries + (stuck + [e]))
    ensures Adds(before.balances, e, after.balances) && after.entries == before.entries + [e] ==> Folds(after.balances, after.entries + stuck)
  {
    if Adds(before.balances, e, after.balances) {
      FoldsAdd(before.balances, before.entries + stuck, e, after.balances);
      assert before.entries + stuck + [e] == before.entries + (stuck + [e]);
      FoldsSwap(after.balances, before.entries, stuck, e);
    }
  }

  predicate Overflowed(r: PostResult) {
    r.Refused? && r.error.BalanceOverflow?
  }

  /** Within the posting limit every step of a run starts sound and has room. */
  lemma {:induction false} StepOf(sha: Bytes -> Digest, posts: seq<JournalEntry>, i: nat)
    requires Applied(sha, posts) <= POSTING_LIMIT
    requires i < |posts|
    ensures var before := RunPosts(sha, posts[..i]);
      && Sound(before.balances, Applied(sha, posts[..i]))
      && PostFacts(before, posts[i], RunPosts(sha, posts[..i + 1]), ResultAt(sha, posts, i),
                   Applied(sha, posts[..i]), Reaches(sha, before, posts[i]))
  {
    AppliedGrows(sha, posts, i);
    AppliedGrows(sha, posts, i + 1);
    assert posts[..i + 1][..i] == posts[..i];
    RunSound(sha, posts[..i]);
    PostStep(sha, RunPosts(sha, posts[..i]), posts[i], Applied(sha, posts[..i]));
  }

  /** A run written out: the state before each post and after the last, and what each post did. */
  datatype Run = Run(posts: seq<JournalEntry>, states: seq<JournalState>, results: seq<PostResult>, reached: seq<bool>, applied: seq<nat>)

  predicate Written(run: Run) {
    && |run.states| == |run.posts| + 1
    && |run.results| == |run.reached| == |run.applied| == |run.posts|
    && run.states[0] == EMPTY_JOURNAL
    && forall i :: 0 <= i < |run.posts| ==> WrittenStep(run, i)
  }

  predicate WrittenStep(run: Run, i: nat)
    requires |run.states| == |run.posts| + 1 && |run.results| == |run.reached| == |run.applied| == |run.posts|
    requires i < |run.posts|
  {
    && Sound(run.states[i].balances, run.applied[i])
    && PostFacts(run.states[i], run.posts[i], run.states[i + 1], run.results[i], run.applied[i], run.reached[i])
  }

  function RunOf(sha: Bytes -> Digest, posts: seq<JournalEntry>): Run {
    Run(posts,
      seq(|posts| + 1, i requires 0 <= i <= |posts| => RunPosts(sha, posts[..i])),
      seq(|posts|, i requires 0 <= i < |posts| => ResultAt(sha, posts, i)),
      seq(|posts|, i requires 0 <= i < |posts| => Reaches(sha, RunPosts(sha, posts[..i]), posts[i])),
      seq(|posts|, i requires 0 <= i < |posts| => Applied(sha, posts[..i])))
  }

  lemma {:induction false} RunWritten(sha: Bytes -> Digest, posts: seq<JournalEntry>)
    requires Applied(sha, posts) <= POSTING_LIMIT
    ensures Written(RunOf(sha, posts))
    ensures RunOf(sha, posts).states[|posts|] == RunPosts(sha, posts)
  {
    var run := RunOf(sha, posts);
    assert posts[..|posts|] == posts;
    assert posts[..0] == [];
    forall i | 0 <= i < |posts| ensures WrittenStep(run, i) {
      StepOf(sha, posts, i);
    }
  }

  /** The posts refused for a negative balance, whose postings stayed. */
  function StuckIn(posts: seq<JournalEntry>, results: seq<PostResult>): seq<JournalEntry>
    requires |posts| == |results|
  {
    if |posts| == 0 then []
    else
      var n := |posts| - 1;
      StuckIn(posts[..n], results[..n]) + if results[n] == Refused(NegativeBalance) then [posts[n]] else []
  }

  lemma StuckNext(run: Run, n: nat)
    requires Written(run) && n < |run.posts|
    ensures StuckIn(run.posts[..n + 1], run.results[..n + 1]) ==
      StuckIn(run.posts[..n], run.results[..n]) + if run.results[n] == Refused(NegativeBalance) then [run.posts[n]] else []
  {
    assert run.posts[..n + 1][..n] == run.posts[..n] && run.results[..n + 1][..n] == run.results[..n];
  }

  lemma FoldFacts(s: JournalState, e: JournalEntry, t: JournalState, r: PostResult, n: nat, reached: bool, stuck: seq<JournalEntry>)
    requires PostFacts(s, e, t, r, n, reached)
    requires Folds(s.balances, s.entries + stuck)
    ensures Folds(t.balances, t.entries + (stuck + if r == Refused(NegativeBalance) then [e] else []))
  {
    assert stuck + [] == stuck;
    if reached {
      FoldStep(s, e, t, stuck);
    }
  }

  lemma {:induction false} WrittenFolds(run: Run, n: nat)
    requires Written(run) && n <= |run.posts|
    ensures Folds(run.states[n].balances, run.states[n].entries + StuckIn(run.posts[..n], run.results[..n]))
  {
    if n > 0 {
      var m := n - 1;
      WrittenFolds(run, m);
      assert WrittenStep(run, m);
      StuckNext(run, m);
      FoldFacts(run.states[m], run.posts[m], run.states[m + 1], run.results[m], run.applied[m], run.reached[m],
                StuckIn(run.posts[..m], run.results[..m]));
    } else {
      assert run.states[0].entries + [] == [];
    }
  }

  lemma WrittenFoldsAll(run: Run)
    requires Written(run)
    ensures var s := run.states[|run.posts|]; Folds(s.balances, s.entries + StuckIn(run.posts, run.results))
  {
    WrittenFolds(run, |run.posts|);
    assert run.posts[..|run.posts|] == run.posts && run.results[..|run.posts|] == run.results;
  }

  function Stuck(sha: Bytes -> Digest, posts: seq<JournalEntry>): seq<JournalEntry> {
    StuckIn(posts, RunOf(sha, posts).results)
  }

  /** Balances always fold the journal together with the posts that got stuck. */
  lemma {:induction false} RunFolds(sha: Bytes -> Digest, posts: seq<JournalEntry>)
    requires Applied(sha, posts) <= POSTING_LIMIT
    ensures Folds(RunPosts(sha, posts).balances, RunPosts(sha, posts).entries + Stuck(sha, posts))
  {
    RunWritten(sha, posts);
    WrittenFoldsAll(RunOf(sha, posts));
  }

  /** The accounting equation: within the first 2^63 applied postings no step overflows or wraps, every
      net is the exact difference of its totals, and summed debits equal summed credits, whatever
      was refused along the way. */
  lemma {:induction false} AccountingEquation(sha: Bytes -> Digest, posts: seq<JournalEntry>, chart: seq<StandardAccount>)
    requires Applied(sha, posts) <= POSTING_LIMIT
    requires IsChart(chart)
    ensures forall i :: 0 <= i < |posts| ==> !Overflowed(ResultAt(sha, posts, i))
    ensures var b := RunPosts(sha, posts).balances;
      && (forall a :: a in b ==> b[a].net == b[a].totalDebits - b[a].totalCredits)
      && Sum(DebitsIn(b), chart) == Sum(CreditsIn(b), chart)
      && Sum(NetsIn(b), chart) == 0
  {
    forall i | 0 <= i < |posts| ensures !Overflowed(ResultAt(sha, posts, i)) {
      NeverOverflows(sha, posts, i);
    }
    RunBalances(sha, posts, chart);
  }

  lemma {:induction false} NeverOverflows(sha: Bytes -> Digest, posts: seq<JournalEntry>, i: nat)
    requires Applied(sha, posts) <= POSTING_LIMIT && i < |posts|
    ensures !Overflowed(ResultAt(sha, posts, i))
  {
    RunWritten(sha, posts);
    WrittenNoOverflow(RunOf(sha, posts), i);
  }

  lemma WrittenNoOverflow(run: Run, i: nat)
    requires Written(run) && i < |run.posts|
    ensures !Overflowed(run.results[i])
  {
    assert WrittenStep(run, i);
  }

  lemma {:induction false} RunBalances(sha: Bytes -> Digest, posts: seq<JournalEntry>, chart: seq<StandardAccount>)
    requires Applied(sha, posts) <= POSTING_LIMIT
    requires IsChart(chart)
    ensures var b := RunPosts(sha, posts).balances;
      && (forall a :: a in b ==> b[a].net == b[a].totalDebits - b[a].totalCredits)
      && Sum(DebitsIn(b), chart) == Sum(CreditsIn(b), chart)
      && Sum(NetsIn(b), chart) == 0
  {
    RunSound(sha, posts);
    RunWritten(sha, posts);
    DebitsEqualCredits(RunOf(sha, posts), |posts|, chart);
    ExactNets(RunPosts(sha, posts).balances, Applied(sha, posts), chart);
  }

  lemma {:induction false} ExactNets(b: Balances, n: nat, chart: seq<StandardAccount>)
    requires Sound(b, n)
    ensures forall a :: a in b ==> b[a].net == b[a].totalDebits - b[a].totalCredits
    ensures Sum(DebitsIn(b), chart) == Sum(NetsIn(b), chart) + Sum(CreditsIn(b), chart)
  {
    assert forall a :: a in b ==> SoundBalance(b[a], n);
    SumPointwise(DebitsIn(b), NetsIn(b), CreditsIn(b), chart);
  }

  lemma {:induction false} DebitsEqualCredits(run: Run, n: nat, chart: seq<StandardAccount>)
    requires Written(run) && n <= |run.posts|
    requires IsChart(chart)
    ensures var b := run.states[n].balances; Sum(DebitsIn(b), chart) == Sum(CreditsIn(b), chart)
  {
    if n == 0 {
      SumZero(DebitsIn(INITIAL_BALANCES), chart);
      SumZero(CreditsIn(INITIAL_BALANCES), chart);
    } else {
      var m := n - 1;
      DebitsEqualCredits(run, m, chart);
      assert WrittenStep(run, m);
      if run.reached[m] {
        BalancedAdds(run.states[m].balances, run.posts[m], run.states[m + 1].balances, chart);
      }
    }
  }

  lemma BalancedAdds(b: Balances, e: JournalEntry, b': Balances, chart: seq<StandardAccount>)
    requires IsChart(chart)
    requires Adds(b, e, b')
    requires Sum(AmountOf, e.debits) == Sum(AmountOf, e.credits)
    requires Sum(DebitsIn(b), chart) == Sum(CreditsIn(b), chart)
    ensures Sum(DebitsIn(b'), chart) == Sum(CreditsIn(b'), chart)
  {
    PostedInTotal(e.debits, chart);
    PostedInTotal(e.credits, chart);
    assert forall a :: a in b ==> Grown(b[a], b'[a], PostedTo(e.debits, a), PostedTo(e.credits, a));
    SumPointwise(DebitsIn(b'), DebitsIn(b), Postings(e.debits), chart);
    SumPointwise(CreditsIn(b'), CreditsIn(b), Postings(e.credits), chart);
  }

  // ---------------------------------------------------------------- signs and poisoning

  /** After an accepted post every account has the sign of its class, and posting an id again returns
      its receipt and changes nothing. */
  lemma AcceptedPosts(sha: Bytes -> Digest, s: JournalState, e: JournalEntry)
    ensures var (t, r) := Post(sha, s, e);
      && (e.entryId in s.receipts ==> t == s && r == Posted(s.receipts[e.entryId]))
      && (e.entryId !in s.receipts && r.Posted? ==>
            && t.entries == s.entries + [e] && SignsOk(t.balances)
            && Post(sha, t, e) == (t, r))
      && (r.Refused? ==> t.entries == s.entries && t.receipts == s.receipts)
  {
  }

  /** The net an entry would leave on an account. */
  function NetAfter(b: Balances, e: JournalEntry, a: StandardAccount): int {
    b[a].net + PostedTo(e.debits, a) - PostedTo(e.credits, a)
  }

  /** The entry would leave some account with the wrong sign for its class. */
  ghost predicate Overdraws(b: Balances, e: JournalEntry) {
    exists a :: a in b && !SignFits(a, NetAfter(b, e, a))
  }

  lemma SignsAfter(b: Balances, e: JournalEntry, b': Balances, n: nat, m: nat)
    requires Sound(b, n) && Sound(b', m) && Adds(b, e, b')
    ensures SignsOk(b') <==> !Overdraws(b, e)
  {
    forall a | a in b ensures b'[a].net == NetAfter(b, e, a) {
      assert SoundBalance(b[a], n) && SoundBalance(b'[a], m);
      assert Grown(b[a], b'[a], PostedTo(e.debits, a), PostedTo(e.credits, a));
    }
    if !Overdraws(b, e) {
      forall a | a in b' ensures SignOk(a, b'[a]) {
        assert SignFits(a, NetAfter(b, e, a));
      }
    } else {
      var a :| a in b && !SignFits(a, NetAfter(b, e, a));
      assert !SignOk(a, b'[a]);
    }
  }

  /** Post `i` gets as far as the balances and would overdraw one. */
  ghost predicate OverdrawnAt(sha: Bytes -> Digest, posts: seq<JournalEntry>, i: nat)
    requires i < |posts|
  {
    var before := RunPosts(sha, posts[..i]);
    Reaches(sha, before, posts[i]) && Overdraws(before.balances, posts[i])
  }

  lemma WrittenRefusal(run: Run, i: nat)
    requires Written(run) && i < |run.posts|
    ensures run.results[i] == Refused(NegativeBalance) <==> run.reached[i] && Overdraws(run.states[i].balances, run.posts[i])
  {
    assert WrittenStep(run, i);
    if run.reached[i] {
      SignsAfter(run.states[i].balances, run.posts[i], run.states[i + 1].balances, run.applied[i],
                 run.applied[i] + |run.posts[i].debits| + |run.posts[i].credits|);
    }
  }

  /** A post is refused for a negative balance exactly when it passes every check and the balances
      before it and its own postings say it would overdraw an account. */
  lemma {:induction false} RefusalExact(sha: Bytes -> Digest, posts: seq<JournalEntry>, i: nat)
    requires Applied(sha, posts) <= POSTING_LIMIT
    requires i < |posts|
    ensures ResultAt(sha, posts, i) == Refused(NegativeBalance) <==> OverdrawnAt(sha, posts, i)
  {
    RunWritten(sha, posts);
    WrittenRefusal(RunOf(sha, posts), i);
  }

  /** As long as no post was refused for its sign, every account has the sign of its class. */
  lemma {:induction false} CleanSigns(run: Run, n: nat)
    requires Written(run) && n <= |run.posts|
    requires forall i :: 0 <= i < n ==> run.results[i] != Refused(NegativeBalance)
    ensures SignsOk(run.states[n].balances)
  {
    if n > 0 {
      CleanSigns(run, n - 1);
      assert WrittenStep(run, n - 1);
    }
  }

  lemma {:induction false} ZeroPostings(ps: seq<Posting>, a: StandardAccount)
    requires Sum(AmountOf, ps) == 0
    ensures PostedTo(ps, a) == 0
  {
    AllAccountsChart();
    ZeroPostingsOn(ps, a, ALL_ACCOUNTS);
  }

  lemma {:induction false} ZeroPostingsOn(ps: seq<Posting>, a: StandardAccount, chart: seq<StandardAccount>)
    requires IsChart(chart)
    requires Sum(AmountOf, ps) == 0
    ensures PostedTo(ps, a) == 0
  {
    PostedInTotal(ps, chart);
    assert a in chart;
    var i :| 0 <= i < |chart| && chart[i] == a;
    SumAtLeast(Postings(ps), chart, i);
  }

  ghost predicate Debiting(e: JournalEntry) {
    exists a :: PostedTo(e.debits, a) > 0
  }

  /** A post refused for its sign in a clean ledger carries a non-zero debit. */
  lemma RefusedMoves(b: Balances, e: JournalEntry, b': Balances, n: nat, m: nat, chart: seq<StandardAccount>)
    requires IsChart(chart)
    requires Sound(b, n) && Sound(b', m) && Adds(b, e, b')
    requires SignsOk(b)
    requires Sum(AmountOf, e.debits) == Sum(AmountOf, e.credits)
    ensures SignsOk(b') || Debiting(e)
  {
    if !Debiting(e) {
      forall a ensures PostedTo(e.debits, a) == 0 {
        assert !(PostedTo(e.debits, a) > 0);
      }
      PostedInTotal(e.debits, chart);
      SumZero(Postings(e.debits), chart);
      forall a | a in b' ensures SignOk(a, b'[a]) {
        ZeroPostings(e.credits, a);
        assert SoundBalance(b[a], n) && SoundBalance(b'[a], m);
        assert Grown(b[a], b'[a], 0, 0);
        assert SignOk(a, b[a]);
      }
    }
  }

  lemma {:induction false} StuckMembers(posts: seq<JournalEntry>, results: seq<PostResult>, k: nat)
    requires |posts| == |results| && k < |posts| && results[k] == Refused(NegativeBalance)
    ensures posts[k] in StuckIn(posts, results)
  {
    if k < |posts| - 1 {
      StuckMembers(posts[..|posts| - 1], results[..|posts| - 1], k);
    }
  }

  lemma {:induction false} NothingStuck(posts: seq<JournalEntry>, results: seq<PostResult>)
    requires |posts| == |results|
    requires forall i :: 0 <= i < |posts| ==> results[i] != Refused(NegativeBalance)
    ensures StuckIn(posts, results) == []
  {
    if |posts| > 0 {
      NothingStuck(posts[..|posts| - 1], results[..|posts| - 1]);
    }
  }

  /** The first post refused for its sign carries a debit. */
  lemma FirstRefusal(run: Run, k: nat) returns (a: StandardAccount)
    requires Written(run) && k < |run.posts| && run.results[k] == Refused(NegativeBalance)
    requires forall i :: 0 <= i < k ==> run.results[i] != Refused(NegativeBalance)
    ensures PostedTo(run.posts[k].debits, a) > 0
  {
    assert WrittenStep(run, k);
    CleanSigns(run, k);
    AllAccountsChart();
    RefusedMoves(run.states[k].balances, run.posts[k], run.states[k + 1].balances, run.applied[k],
                 run.applied[k] + |run.posts[k].debits| + |run.posts[k].credits|, ALL_ACCOUNTS);
    a :| PostedTo(run.posts[k].debits, a) > 0;
  }

  lemma FirstIndex(results: seq<PostResult>, i: nat) returns (k: nat)
    requires i < |results| && results[i] == Refused(NegativeBalance)
    ensures k < |results| && results[k] == Refused(NegativeBalance)
    ensures forall j :: 0 <= j < k ==> results[j] != Refused(NegativeBalance)
  {
    k := 0;
    while results[k] != Refused(NegativeBalance)
      invariant k <= i && forall j :: 0 <= j < k ==> results[j] != Refused(NegativeBalance)
      decreases i - k
    {
      k := k + 1;
    }
  }

  lemma StuckBreaksFold(b: Balances, entries: seq<JournalEntry>, stuck: seq<JournalEntry>, e: JournalEntry, a: StandardAccount)
    requires Folds(b, entries + stuck) && e in stuck && PostedTo(e.debits, a) > 0
    ensures !Folds(b, entries)
  {
    var k :| 0 <= k < |stuck| && stuck[k] == e;
    SumAtLeast(DebitsTo(a), stuck, k);
    SumAppend(DebitsTo(a), entries, stuck);
    assert a in b && b[a].totalDebits > Sum(DebitsTo(a), entries);
  }

  lemma WrittenPoison(run: Run)
    requires Written(run)
    ensures var s := run.states[|run.posts|];
      Folds(s.balances, s.entries) <==> forall i :: 0 <= i < |run.posts| ==> run.results[i] != Refused(NegativeBalance)
  {
    var n := |run.posts|;
    var s := run.states[n];
    var stuck := StuckIn(run.posts, run.results);
    WrittenFoldsAll(run);
    if i :| 0 <= i < n && run.results[i] == Refused(NegativeBalance) {
      var k := FirstIndex(run.results, i);
      var a := FirstRefusal(run, k);
      StuckMembers(run.posts, run.results, k);
      StuckBreaksFold(s.balances, s.entries, stuck, run.posts[k], a);
    } else {
      NothingStuck(run.posts, run.results);
      assert s.entries + stuck == s.entries;
    }
  }

  /** The balances are the fold of the journal exactly as long as no post that passed its checks would
      have overdrawn an account. */
  lemma {:induction false} PoisonedExactly(sha: Bytes -> Digest, posts: seq<JournalEntry>)
    requires Applied(sha, posts) <= POSTING_LIMIT
    ensures var s := RunPosts(sha, posts);
      Folds(s.balances, s.entries) <==> forall i :: 0 <= i < |posts| ==> !OverdrawnAt(sha, posts, i)
  {
    var run := RunOf(sha, posts);
    RunWritten(sha, posts);
    WrittenPoison(run);
    forall i | 0 <= i < |posts| ensures run.results[i] == Refused(NegativeBalance) <==> OverdrawnAt(sha, posts, i) {
      WrittenRefusal(run, i);
    }
  }

  /** Paying out of an empty asset account: one satoshi debited to user balances. */
  function Overdraft(sha: Bytes -> Digest): JournalEntry {
    var draft := JournalEntry([], 0, [], [Posting(LiabilityUserBalances, 1)], [Posting(AssetCustodiedBtc, 1)], 0, [], None);
    draft.(entryHash := ComputeEntryHash(sha, draft, None))
  }

  /** An overdraft is refused and still moves the balances of an empty journal. */
  lemma OverdraftSticks(sha: Bytes -> Digest)
    ensures var (t, r) := Post(sha, EMPTY_JOURNAL, Overdraft(sha));
      && r == Refused(NegativeBalance)
      && t.entries == []
      && t.balances[AssetCustodiedBtc] == AccountBalance(0, 1, -1)
      && t.balances[LiabilityUserBalances] == AccountBalance(1, 0, 1)
  {
    var e := Overdraft(sha);
    OneAmount(e.debits);
    OneAmount(e.credits);
    assert EntryMaterial(sha, e, None) == EntryMaterial(sha, e.(entryHash := []), None);
    assert CheckEntry(sha, EMPTY_JOURNAL, e).None?;
    OneOverdraft(e);
    var b := PostBoth(INITIAL_BALANCES, e.debits, e.credits).0;
    assert AssetCustodiedBtc in b && !SignOk(AssetCustodiedBtc, b[AssetCustodiedBtc]);
  }

  lemma {:induction false} OneAmount(ps: seq<Posting>)
    requires |ps| == 1
    ensures Sum(AmountOf, ps) == ps[0].amountSats
  {
    assert Sum(AmountOf, ps[1..]) == 0;
  }

  lemma OneOverdraft(e: JournalEntry)
    requires e.debits == [Posting(LiabilityUserBalances, 1)] && e.credits == [Posting(AssetCustodiedBtc, 1)]
    ensures var (b, o) := PostBoth(INITIAL_BALANCES, e.debits, e.credits);
      && o.None?
      && b[AssetCustodiedBtc] == AccountBalance(0, 1, -1)
      && b[LiabilityUserBalances] == AccountBalance(1, 0, 1)
  {
    var (b, o) := PostOne(INITIAL_BALANCES, e.debits[0], DebitSide);
    assert PostAll(INITIAL_BALANCES, e.debits, DebitSide) == (b, None) by { assert e.debits[1..] == []; }
    var (b', o') := PostOne(b, e.credits[0], CreditSide);
    assert PostAll(b, e.credits, CreditSide) == (b', None) by { assert e.credits[1..] == []; }
  }
}
