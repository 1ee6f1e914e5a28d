/**
 * Conversations over several folders synced again and again in one order. A sync finds a parent filed anew
 * when the parent's folder came earlier in the round, and as the last round left it otherwise; so only the
 * links that do not lead to an earlier folder cost a round, and they alone decide whether a thread comes to rest.
 */
module ThreadRounds {
  import opened Prelude
  import opened Threads

  // ----- Folders in order -----

  ghost predicate InOrder(s: Server, order: seq<string>) {
    s.Consistent() && Distinct(order) && SetOf(order) == s.held.Keys
  }

  ghost predicate HeldAt(s: Server, order: seq<string>, y: string, i: nat) {
    i < |order| && order[i] in s.held && y in s.held[order[i]]
  }

  /** When in the round the message's folder is synced. */
  ghost function Turn(s: Server, order: seq<string>, y: string): nat {
    if i: nat :| HeldAt(s, order, y, i) then i else 0
  }

  ghost predicate OneCopy(s: Server, order: seq<string>, y: string) {
    forall i: nat, j: nat | HeldAt(s, order, y, i) && HeldAt(s, order, y, j) :: i == j
  }

  /** Neither the message nor any of its ancestors is held by two folders. */
  ghost predicate OneCopyUp(s: Server, order: seq<string>, x: string) {
    forall n: nat :: OneCopy(s, order, Up(s.links, x, n))
  }

  /** The thread the message is filed under; its own id when it is not known. */
  ghost function Thread(s: Server, order: seq<string>, filing: Filing, y: string): string {
    var i := Turn(s, order, y);
    if HeldAt(s, order, y, i) && Place(order[i], y) in filing then filing[Place(order[i], y)] else y
  }

  /** A filing as any full round of syncs leaves it. */
  ghost predicate Rounded(s: Server, filing: Filing)
    requires s.Consistent()
  {
    s.Ready(filing) && s.Settled(filing, s.held.Keys, 0)
  }

  /** One round: the filings before and after every folder of the order. */
  ghost predicate Pass(s: Server, order: seq<string>, before: Filing, filings: seq<Filing>)
    requires s.Consistent()
  {
    s.Chain(filings, order) && filings[0] == before
  }

  /** The filing a round ends with. */
  ghost function End(filings: seq<Filing>): Filing {
    if filings == [] then map[] else filings[|filings| - 1]
  }

  ghost function Before(start: Filing, passes: seq<seq<Filing>>, n: nat): Filing
    requires n <= |passes|
  {
    if n == 0 then start else End(passes[n - 1])
  }

  /** Rounds of syncs, each going on from the one before. */
  ghost predicate Passes(s: Server, order: seq<string>, start: Filing, passes: seq<seq<Filing>>)
    requires s.Consistent()
  {
    forall n: nat {:trigger Pass(s, order, Before(start, passes, n), passes[n])} | n < |passes| ::
      Pass(s, order, Before(start, passes, n), passes[n])
  }

  /** Any first round leaves such a filing. */
  lemma FirstPassRounds(s: Server, order: seq<string>, filings: seq<Filing>)
    requires InOrder(s, order) && s.Chain(filings, order) && s.OnlyHeld(filings[0])
    ensures Rounded(s, filings[|order|])
  {
    forall f | f in s.held.Keys
      ensures f in Reached(order, 0, |order|)
    {
      assert f in SetOf(order);
    }
    RoundFiles(s, filings, order, 0, |order|);
  }

  // ----- One sync -----

  lemma FiledWhereHeld(s: Server, order: seq<string>, filing: Filing, k: Place)
    requires InOrder(s, order) && s.Ready(filing) && OneCopy(s, order, k.messageId)
    ensures k in filing <==> HeldAt(s, order, k.messageId, Turn(s, order, k.messageId)) && k.folder == order[Turn(s, order, k.messageId)]
  {
    if k in filing {
      assert k.folder in SetOf(order);
      var i: nat :| i < |order| && order[i] == k.folder;
      assert HeldAt(s, order, k.messageId, i);
    }
  }

  /** What a message finds of its parent. */
  lemma FoundIsThread(s: Server, order: seq<string>, filing: Filing, x: string, thread: string)
    requires InOrder(s, order) && Rounded(s, filing) && x in s.links
    requires OneCopy(s, order, Parent(s.links, x)) && s.MayFile(filing, x, thread)
    ensures thread == if s.links[x].None? then x else Thread(s, order, filing, s.links[x].value)
  {
    if s.links[x].Some? {
      var p := s.links[x].value;
      forall k | k in filing && k.messageId == p
        ensures filing[k] == Thread(s, order, filing, p)
      {
        FiledWhereHeld(s, order, filing, k);
      }
      if !exists k :: k in filing && k.messageId == p {
        var i := Turn(s, order, p);
        if HeldAt(s, order, p, i) {
          FiledWhereHeld(s, order, filing, Place(order[i], p));
        }
      }
    }
  }

  lemma HeldIsFiled(s: Server, order: seq<string>, filing: Filing, y: string)
    requires InOrder(s, order) && Rounded(s, filing) && OneCopy(s, order, y)
    ensures var i := Turn(s, order, y);
            if y in s.links then HeldAt(s, order, y, i) && Place(order[i], y) in filing
                                 && Thread(s, order, filing, y) == filing[Place(order[i], y)]
            else Thread(s, order, filing, y) == y
    ensures IsTop(s.links, y) ==> Thread(s, order, filing, y) == y
  {
    if y in s.links {
      var f :| f in s.held && y in s.held[f];
      assert f in SetOf(order);
      var i: nat :| i < |order| && order[i] == f;
      assert HeldAt(s, order, y, i);
      FiledWhereHeld(s, order, filing, Place(order[Turn(s, order, y)], y));
    }
  }

  /** A sync gives the messages of its folder their parents' threads and leaves every other as it was. */
  lemma OneSync(s: Server, order: seq<string>, j: nat, filing: Filing, filing': Filing, y: string)
    requires InOrder(s, order) && j < |order| && order[j] in s.held
    requires Rounded(s, filing) && Rounded(s, filing') && s.Refile(filing, order[j], filing')
    requires OneCopy(s, order, y) && OneCopy(s, order, Parent(s.links, y))
    ensures Thread(s, order, filing', y) == Thread(s, order, filing, if Turn(s, order, y) == j then Parent(s.links, y) else y)
  {
    HeldIsFiled(s, order, filing, y);
    HeldIsFiled(s, order, filing', y);
    if y in s.links {
      var k := Place(order[Turn(s, order, y)], y);
      if Turn(s, order, y) == j {
        assert s.MayFile(filing, y, filing'[k]);
        FoundIsThread(s, order, filing, y, filing'[k]);
      } else {
        assert k.folder != order[j];
      }
    }
  }

  // ----- One round -----

  /** The first ancestor that is not found in an earlier folder than its child's. */
  ghost function Late(s: Server, order: seq<string>, y: string): string
    decreases Turn(s, order, y)
  {
    var p := Parent(s.links, y);
    if Turn(s, order, p) < Turn(s, order, y) then Late(s, order, p) else p
  }

  lemma OneCopyOfParent(s: Server, order: seq<string>, y: string)
    requires OneCopyUp(s, order, y)
    ensures OneCopy(s, order, y) && OneCopyUp(s, order, Parent(s.links, y)) && OneCopy(s, order, Parent(s.links, y))
  {
    assert Up(s.links, y, 0) == y;
    forall n: nat
      ensures OneCopy(s, order, Up(s.links, Parent(s.links, y), n))
    {
      assert Up(s.links, y, n + 1) == Up(s.links, Parent(s.links, y), n);
    }
    assert Up(s.links, y, 1) == Up(s.links, Parent(s.links, y), 0);
  }

  lemma {:induction false} OneCopyOfLate(s: Server, order: seq<string>, y: string)
    requires OneCopyUp(s, order, y)
    ensures OneCopyUp(s, order, Late(s, order, y))
    decreases Turn(s, order, y)
  {
    OneCopyOfParent(s, order, y);
    if Turn(s, order, Parent(s.links, y)) < Turn(s, order, y) {
      OneCopyOfLate(s, order, Parent(s.links, y));
    }
  }

  lemma PassStaysRounded(s: Server, order: seq<string>, filings: seq<Filing>, j: nat)
    requires InOrder(s, order) && s.Chain(filings, order) && Rounded(s, filings[0]) && j <= |order|
    ensures Rounded(s, filings[j])
  {
    ChainSettles(s, filings, order, 0, j, 0);
  }

  lemma OneSyncOfPass(s: Server, order: seq<string>, filings: seq<Filing>, j: nat, y: string)
    requires InOrder(s, order) && s.Chain(filings, order) && Rounded(s, filings[0]) && j < |order| && OneCopyUp(s, order, y)
    ensures Thread(s, order, filings[j + 1], y) == Thread(s, order, filings[j], if Turn(s, order, y) == j then Parent(s.links, y) else y)
  {
    PassStaysRounded(s, order, filings, j);
    PassStaysRounded(s, order, filings, j + 1);
    OneCopyOfParent(s, order, y);
    OneSync(s, order, j, filings[j], filings[j + 1], y);
  }

  /** The j-th sync of a round, as threads: its messages take their parents', the others keep theirs. */
  ghost predicate Moves(s: Server, order: seq<string>, j: nat, filing: Filing, filing': Filing) {
    forall y | OneCopyUp(s, order, y) ::
      Thread(s, order, filing', y) == Thread(s, order, filing, if Turn(s, order, y) == j then Parent(s.links, y) else y)
  }

  ghost predicate PassMoves(s: Server, order: seq<string>, filings: seq<Filing>) {
    && |filings| == |order| + 1
    && forall j: nat {:trigger Moves(s, order, j, filings[j], filings[j + 1])} | j < |order| ::
         Moves(s, order, j, filings[j], filings[j + 1])
  }

  lemma PassIsMoves(s: Server, order: seq<string>, filings: seq<Filing>)
    requires InOrder(s, order) && s.Chain(filings, order) && Rounded(s, filings[0])
    ensures PassMoves(s, order, filings)
  {
    forall j: nat | j < |order|
      ensures Moves(s, order, j, filings[j], filings[j + 1])
    {
      forall y | OneCopyUp(s, order, y)
        ensures Thread(s, order, filings[j + 1], y) == Thread(s, order, filings[j], if Turn(s, order, y) == j then Parent(s.links, y) else y)
      {
        OneSyncOfPass(s, order, filings, j, y);
      }
    }
  }

  /** Between the syncs of its own folder a message keeps its thread. */
  lemma {:induction false} StaysUntilTurn(s: Server, order: seq<string>, filings: seq<Filing>, i: nat, j: nat, y: string)
    requires PassMoves(s, order, filings) && OneCopyUp(s, order, y)
    requires i <= j <= |order| && !(i <= Turn(s, order, y) < j)
    ensures Thread(s, order, filings[j], y) == Thread(s, order, filings[i], y)
    decreases j
  {
    if i < j {
      var k: nat := j - 1;
      StaysUntilTurn(s, order, filings, i, k, y);
      assert Moves(s, order, k, filings[k], filings[k + 1]);
    }
  }

  /** Once its folder is synced a message has the thread its late ancestor had when the round began. */
  lemma {:induction false} PassCarries(s: Server, order: seq<string>, filings: seq<Filing>, j: nat, y: string)
    requires PassMoves(s, order, filings) && OneCopyUp(s, order, y)
    requires Turn(s, order, y) < j <= |order|
    ensures Thread(s, order, filings[j], y) == Thread(s, order, filings[0], Late(s, order, y))
    decreases Turn(s, order, y)
  {
    var q, p := Turn(s, order, y), Parent(s.links, y);
    StaysUntilTurn(s, order, filings, q + 1, j, y);
    assert Moves(s, order, q, filings[q], filings[q + 1]);
    OneCopyOfParent(s, order, y);
    if Turn(s, order, p) < q {
      PassCarries(s, order, filings, q, p);
    } else {
      StaysUntilTurn(s, order, filings, 0, q, p);
    }
  }

  lemma UnknownIsItself(s: Server, order: seq<string>, filing: Filing, y: string)
    requires s.Consistent() && y !in s.links
    ensures Thread(s, order, filing, y) == y == Late(s, order, y)
  {
  }

  // ----- Many rounds -----

  /** The late ancestors as reply links of their own. */
  ghost function LateLinks(s: Server, order: seq<string>): Links {
    map y | y in s.links :: if s.links[y].None? then None else Some(Late(s, order, y))
  }

  lemma LateParent(s: Server, order: seq<string>, y: string)
    ensures Parent(LateLinks(s, order), y) == Late(s, order, y)
  {
  }

  lemma {:induction false} PassesStayRounded(s: Server, order: seq<string>, start: Filing, passes: seq<seq<Filing>>, n: nat)
    requires InOrder(s, order) && Rounded(s, start) && Passes(s, order, start, passes) && n <= |passes|
    ensures Rounded(s, Before(start, passes, n))
  {
    if n > 0 {
      PassesStayRounded(s, order, start, passes, n - 1);
      assert Pass(s, order, Before(start, passes, n - 1), passes[n - 1]);
      PassStaysRounded(s, order, passes[n - 1], |order|);
    }
  }

  lemma TurnInOrder(s: Server, order: seq<string>, y: string)
    requires InOrder(s, order) && y in s.links
    ensures Turn(s, order, y) < |order|
  {
    var f :| f in s.held && y in s.held[f];
    assert f in SetOf(order);
    var i: nat :| i < |order| && order[i] == f;
    assert HeldAt(s, order, y, i);
  }

  /** Through one whole round. */
  lemma RoundCarries(s: Server, order: seq<string>, filings: seq<Filing>, y: string)
    requires InOrder(s, order) && PassMoves(s, order, filings) && OneCopyUp(s, order, y)
    ensures Thread(s, order, End(filings), y) == Thread(s, order, filings[0], Late(s, order, y))
  {
    if y in s.links {
      TurnInOrder(s, order, y);
      PassCarries(s, order, filings, |order|, y);
    } else {
      UnknownIsItself(s, order, filings[0], y);
      UnknownIsItself(s, order, End(filings), y);
    }
  }

  /** Every message with one copy of each ancestor has the thread its late ancestor had before. */
  ghost predicate Carries(s: Server, order: seq<string>, before: Filing, after: Filing) {
    forall y | OneCopyUp(s, order, y) :: Thread(s, order, after, y) == Thread(s, order, before, Late(s, order, y))
  }

  lemma PassOfPasses(s: Server, order: seq<string>, start: Filing, passes: seq<seq<Filing>>, n: nat)
    requires InOrder(s, order) && Rounded(s, start) && Passes(s, order, start, passes) && n < |passes|
    ensures PassMoves(s, order, passes[n]) && passes[n][0] == Before(start, passes, n)
  {
    PassesStayRounded(s, order, start, passes, n);
    assert Pass(s, order, Before(start, passes, n), passes[n]);
    PassIsMoves(s, order, passes[n]);
  }

  lemma PassesCarry(s: Server, order: seq<string>, start: Filing, passes: seq<seq<Filing>>, n: nat)
    requires InOrder(s, order) && Rounded(s, start) && Passes(s, order, start, passes) && n < |passes|
    ensures Carries(s, order, Before(start, passes, n), Before(start, passes, n + 1))
  {
    PassOfPasses(s, order, start, passes, n);
    forall y | OneCopyUp(s, order, y)
      ensures Thread(s, order, Before(start, passes, n + 1), y) == Thread(s, order, Before(start, passes, n), Late(s, order, y))
    {
      RoundCarries(s, order, passes[n], y);
    }
  }

  ghost predicate AllCarry(s: Server, order: seq<string>, bounds: seq<Filing>) {
    forall k: nat | k + 1 < |bounds| :: Carries(s, order, bounds[k], bounds[k + 1])
  }

  lemma {:induction false} ManyCarry(s: Server, order: seq<string>, bounds: seq<Filing>, n: nat, y: string)
    requires AllCarry(s, order, bounds) && n < |bounds| && OneCopyUp(s, order, y)
    ensures Thread(s, order, bounds[n], y) == Thread(s, order, bounds[0], Up(LateLinks(s, order), y, n))
    decreases n
  {
    if n > 0 {
      assert Carries(s, order, bounds[n - 1], bounds[n]);
      OneCopyOfLate(s, order, y);
      ManyCarry(s, order, bounds, n - 1, Late(s, order, y));
      LateParent(s, order, y);
    }
  }

  /** The filings between the rounds. */
  ghost function Bounds(start: Filing, passes: seq<seq<Filing>>): (bounds: seq<Filing>)
    ensures |bounds| == |passes| + 1
    ensures forall n: nat | n <= |passes| :: bounds[n] == Before(start, passes, n)
  {
    seq(|passes| + 1, n requires 0 <= n <= |passes| => Before(start, passes, n))
  }

  lemma BoundsCarry(s: Server, order: seq<string>, start: Filing, passes: seq<seq<Filing>>)
    requires InOrder(s, order) && Rounded(s, start) && Passes(s, order, start, passes)
    ensures AllCarry(s, order, Bounds(start, passes))
  {
    var bounds := Bounds(start, passes);
    forall k: nat | k + 1 < |bounds|
      ensures Carries(s, order, bounds[k], bounds[k + 1])
    {
      PassesCarry(s, order, start, passes, k);
    }
  }

  /** After n rounds every message has the thread its n-th late ancestor started with. */
  lemma RoundsCarry(s: Server, order: seq<string>, start: Filing, passes: seq<seq<Filing>>, n: nat, y: string)
    requires InOrder(s, order) && Rounded(s, start) && Passes(s, order, start, passes) && n <= |passes| && OneCopyUp(s, order, y)
    ensures Thread(s, order, Before(start, passes, n), y) == Thread(s, order, start, Up(LateLinks(s, order), y, n))
  {
    BoundsCarry(s, order, start, passes);
    ManyCarry(s, order, Bounds(start, passes), n, y);
  }

  // ----- Rounds can always go on -----

  ghost function AnyThread(s: Server, filing: Filing, x: string): (thread: string)
    requires x in s.links
    ensures s.MayFile(filing, x, thread)
  {
    if s.links[x].None? then x
    else if k :| k in filing && k.messageId == s.links[x].value then filing[k]
    else s.links[x].value
  }

  lemma SomeRefile(s: Server, filing: Filing, folder: string) returns (filing': Filing)
    requires s.Consistent() && folder in s.held
    ensures s.Refile(filing, folder, filing')
  {
    var places := (set k | k in filing && k.folder != folder) + (set x | x in s.held[folder] :: Place(folder, x));
    filing' := map k | k in places :: if k.folder == folder && k.messageId in s.links then AnyThread(s, filing, k.messageId)
                                      else if k in filing then filing[k] else "";
  }

  lemma {:induction false} SomeChain(s: Server, start: Filing, folders: seq<string>) returns (filings: seq<Filing>)
    requires s.Consistent() && forall f | f in folders :: f in s.held
    ensures s.Chain(filings, folders) && filings[0] == start
  {
    if folders == [] {
      filings := [start];
    } else {
      var last := |folders| - 1;
      filings := SomeChain(s, start, folders[..last]);
      var next := SomeRefile(s, filings[last], folders[last]);
      ChainGrows(s, filings, folders[..last], folders[last], next);
      assert folders == folders[..last] + [folders[last]];
      filings := filings + [next];
    }
  }

  lemma {:induction false} SomePasses(s: Server, order: seq<string>, start: Filing, n: nat) returns (passes: seq<seq<Filing>>)
    requires InOrder(s, order)
    ensures Passes(s, order, start, passes) && |passes| == n
  {
    if n == 0 {
      passes := [];
    } else {
      var before := SomePasses(s, order, start, n - 1);
      forall f | f in order
        ensures f in s.held
      {
        assert f in SetOf(order);
      }
      var last := SomeChain(s, Before(start, before, n - 1), order);
      passes := before + [last];
      forall k: nat | k < n
        ensures Pass(s, order, Before(start, passes, k), passes[k])
      {
        if k < n - 1 {
          assert Pass(s, order, Before(start, before, k), before[k]);
        }
      }
    }
  }

  // ----- When a thread comes to rest -----

  /** In every run of rounds from this filing, the message has after n rounds the thread it then keeps at every moment. */
  ghost predicate KeepsFromRound(s: Server, order: seq<string>, start: Filing, x: string, n: nat)
    requires s.Consistent()
  {
    forall passes: seq<seq<Filing>>, i: nat, j: nat
      | Passes(s, order, start, passes) && n <= i < |passes| && j < |passes[i]| ::
      Thread(s, order, passes[i][j], x) == Thread(s, order, Before(start, passes, n), x)
  }

  ghost predicate LateCarriedFrom(s: Server, order: seq<string>, start: Filing, x: string, n: nat) {
    forall i: nat | i >= n ::
      Thread(s, order, start, Up(LateLinks(s, order), x, i)) == Thread(s, order, start, Up(LateLinks(s, order), x, n))
  }

  /** Within a round a message has the thread from before it or the one from after it. */
  lemma MomentOfPass(s: Server, order: seq<string>, start: Filing, passes: seq<seq<Filing>>, i: nat, j: nat, x: string)
    requires InOrder(s, order) && Rounded(s, start) && Passes(s, order, start, passes) && OneCopyUp(s, order, x)
    requires i < |passes| && j < |passes[i]|
    ensures || Thread(s, order, passes[i][j], x) == Thread(s, order, Before(start, passes, i), x)
            || Thread(s, order, passes[i][j], x) == Thread(s, order, Before(start, passes, i + 1), x)
  {
    PassOfPasses(s, order, start, passes, i);
    if Turn(s, order, x) < j {
      StaysUntilTurn(s, order, passes[i], j, |order|, x);
    } else {
      StaysUntilTurn(s, order, passes[i], 0, j, x);
    }
  }

  lemma SameAtBounds(s: Server, order: seq<string>, start: Filing, passes: seq<seq<Filing>>, x: string, n: nat, i: nat)
    requires InOrder(s, order) && Rounded(s, start) && OneCopyUp(s, order, x) && LateCarriedFrom(s, order, start, x, n)
    requires Passes(s, order, start, passes) && n <= i <= |passes|
    ensures Thread(s, order, Before(start, passes, i), x) == Thread(s, order, Before(start, passes, n), x)
  {
    RoundsCarry(s, order, start, passes, n, x);
    RoundsCarry(s, order, start, passes, i, x);
  }

  lemma KeptThroughRound(s: Server, order: seq<string>, start: Filing, passes: seq<seq<Filing>>, x: string, n: nat, i: nat, j: nat)
    requires InOrder(s, order) && Rounded(s, start) && OneCopyUp(s, order, x) && LateCarriedFrom(s, order, start, x, n)
    requires Passes(s, order, start, passes) && n <= i < |passes| && j < |passes[i]|
    ensures Thread(s, order, passes[i][j], x) == Thread(s, order, Before(start, passes, n), x)
  {
    SameAtBounds(s, order, start, passes, x, n, i);
    SameAtBounds(s, order, start, passes, x, n, i + 1);
    MomentOfPass(s, order, start, passes, i, j, x);
  }

  lemma KeepsWhatIsLate(s: Server, order: seq<string>, start: Filing, x: string, n: nat)
    requires InOrder(s, order) && Rounded(s, start) && OneCopyUp(s, order, x)
    ensures KeepsFromRound(s, order, start, x, n) <==> LateCarriedFrom(s, order, start, x, n)
  {
    if KeepsFromRound(s, order, start, x, n) {
      forall i: nat | i >= n
        ensures Thread(s, order, start, Up(LateLinks(s, order), x, i)) == Thread(s, order, start, Up(LateLinks(s, order), x, n))
      {
        var passes := SomePasses(s, order, start, i + 1);
        RoundsCarry(s, order, start, passes, i, x);
        RoundsCarry(s, order, start, passes, n, x);
        assert Pass(s, order, Before(start, passes, i), passes[i]);
        assert passes[i][0] == Before(start, passes, i);
      }
    }
    if LateCarriedFrom(s, order, start, x, n) {
      forall passes: seq<seq<Filing>>, i: nat, j: nat
        | Passes(s, order, start, passes) && n <= i < |passes| && j < |passes[i]|
        ensures Thread(s, order, passes[i][j], x) == Thread(s, order, Before(start, passes, n), x)
      {
        KeptThroughRound(s, order, start, passes, x, n, i, j);
      }
    }
  }

  /** From the m-th late ancestor on the late ancestors go round in p steps, all of them started in one thread. */
  ghost predicate LateRoundAgrees(s: Server, order: seq<string>, start: Filing, x: string, m: nat, p: nat) {
    var links := LateLinks(s, order);
    && p > 0 && Up(links, x, m + p) == Up(links, x, m)
    && forall k: nat | m <= k < m + p :: Thread(s, order, start, Up(links, x, k)) == Thread(s, order, start, Up(links, x, m))
  }

  lemma AgreeingLateRoundCarries(s: Server, order: seq<string>, start: Filing, x: string, m: nat, p: nat)
    requires LateRoundAgrees(s, order, start, x, m, p)
    ensures LateCarriedFrom(s, order, start, x, m)
  {
    var links := LateLinks(s, order);
    forall i: nat | i >= m
      ensures Thread(s, order, start, Up(links, x, i)) == Thread(s, order, start, Up(links, x, m))
    {
      var j := RoundRepeats(links, x, m, p, i);
    }
  }

  lemma CarriedMeansLateRound(s: Server, order: seq<string>, start: Filing, x: string, n: nat) returns (m: nat, p: nat)
    requires LateCarriedFrom(s, order, start, x, n)
    ensures LateRoundAgrees(s, order, start, x, m, p)
  {
    var links := LateLinks(s, order);
    if h: nat :| IsTop(links, Up(links, x, h)) {
      m, p := h, 1;
      OneMoreUp(links, x, h);
    } else {
      var i, j := ChainEndsOrRepeats(links, x, n);
      m, p := n + i, j - i;
    }
  }

  /**
   * Folders synced round after round in one order, from any filing a full round has left: the thread of a message
   * whose ancestors have one copy each ever comes to rest exactly when its late ancestors run into a round that
   * started in one thread.
   */
  lemma RestsExactlyWhenLateRoundAgrees(s: Server, order: seq<string>, start: Filing, x: string)
    requires InOrder(s, order) && Rounded(s, start) && OneCopyUp(s, order, x)
    ensures (exists n: nat :: KeepsFromRound(s, order, start, x, n))
       <==> (exists m: nat, p: nat :: LateRoundAgrees(s, order, start, x, m, p))
  {
    if n: nat :| KeepsFromRound(s, order, start, x, n) {
      KeepsWhatIsLate(s, order, start, x, n);
      var m, p := CarriedMeansLateRound(s, order, start, x, n);
    }
    if m: nat, p: nat :| LateRoundAgrees(s, order, start, x, m, p) {
      AgreeingLateRoundCarries(s, order, start, x, m, p);
      KeepsWhatIsLate(s, order, start, x, m);
    }
  }

  // ----- Two cycles -----

  /** Two messages replying to each other from different folders settle in one round, and share the thread the one
      in the later folder started with. */
  lemma MutualRepliesAcrossFoldersSettle(s: Server, order: seq<string>, start: Filing, passes: seq<seq<Filing>>, a: string, b: string, n: nat)
    requires InOrder(s, order) && Rounded(s, start) && Passes(s, order, start, passes) && 0 < n <= |passes|
    requires a in s.links && b in s.links && s.links[a] == Some(b) && s.links[b] == Some(a)
    requires OneCopyUp(s, order, a) && Turn(s, order, a) < Turn(s, order, b)
    ensures Thread(s, order, Before(start, passes, n), a) == Thread(s, order, start, b)
    ensures Thread(s, order, Before(start, passes, n), b) == Thread(s, order, start, b)
  {
    var links := LateLinks(s, order);
    assert Late(s, order, a) == b && Late(s, order, b) == b;
    LateParent(s, order, a);
    LateParent(s, order, b);
    OneCopyOfParent(s, order, a);
    UpAtEnd(links, b, n);
    UpAtEnd(links, b, n - 1);
    RoundsCarry(s, order, start, passes, n, a);
    RoundsCarry(s, order, start, passes, n, b);
  }

  lemma {:induction false} TurnsByTwo(links: Links, a: string, b: string, c: string, n: nat)
    requires Parent(links, a) == b && Parent(links, b) == c && Parent(links, c) == b && n > 0
    ensures Up(links, a, n) == if n % 2 == 0 then c else b
  {
    if n == 1 {
      assert Up(links, a, 1) == Up(links, b, 0);
    } else {
      TurnsByTwo(links, a, b, c, n - 1);
      OneMoreUp(links, a, n - 1);
    }
  }

  /** The late ancestors of a turn from b to c and back; they agree exactly when b and c do. */
  lemma TwoLateAgreeExactly(s: Server, order: seq<string>, start: Filing, a: string, b: string, c: string)
    requires Late(s, order, a) == b && Late(s, order, b) == c && Late(s, order, c) == b
    ensures (exists m: nat, p: nat :: LateRoundAgrees(s, order, start, a, m, p))
       <==> Thread(s, order, start, b) == Thread(s, order, start, c)
  {
    var links := LateLinks(s, order);
    LateParent(s, order, a);
    LateParent(s, order, b);
    LateParent(s, order, c);
    if Thread(s, order, start, b) == Thread(s, order, start, c) {
      forall i: nat | i >= 1
        ensures Thread(s, order, start, Up(links, a, i)) == Thread(s, order, start, Up(links, a, 1))
      {
        TurnsByTwo(links, a, b, c, i);
        TurnsByTwo(links, a, b, c, 1);
      }
      var m, p := CarriedMeansLateRound(s, order, start, a, 1);
    }
    if m: nat, p: nat :| LateRoundAgrees(s, order, start, a, m, p) {
      AgreeingLateRoundCarries(s, order, start, a, m, p);
      TurnsByTwo(links, a, b, c, m + 1);
      TurnsByTwo(links, a, b, c, m + 2);
      var same := Thread(s, order, start, Up(links, a, m));
      assert Thread(s, order, start, Up(links, a, m + 1)) == same && Thread(s, order, start, Up(links, a, m + 2)) == same;
    }
  }

  /** A cycle of three with two of them in one folder and the third in a later one settles exactly when the two whose
      parents are late started in one thread. */
  lemma CycleOfThreeSettlesExactly(s: Server, order: seq<string>, start: Filing, a: string, b: string, c: string)
    requires InOrder(s, order) && Rounded(s, start) && OneCopyUp(s, order, a)
    requires a in s.links && b in s.links && c in s.links
    requires s.links[a] == Some(b) && s.links[b] == Some(c) && s.links[c] == Some(a)
    requires Turn(s, order, a) == Turn(s, order, b) < Turn(s, order, c)
    ensures (exists n: nat :: KeepsFromRound(s, order, start, a, n)) <==> Thread(s, order, start, b) == Thread(s, order, start, c)
  {
    assert Late(s, order, a) == b && Late(s, order, b) == c && Late(s, order, c) == b;
    RestsExactlyWhenLateRoundAgrees(s, order, start, a);
    TwoLateAgreeExactly(s, order, start, a, b, c);
  }
}
