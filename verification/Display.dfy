/** The 16x1 front-panel display: seven clients compete for one line.  A client is
    idle, pending or active (`Ready` 0, 1, 2); only one may be active, new data can
    arrive between any two ticks. */
module Display {

  const WIDTH: nat := 16
  const HOLD: int := 10
  const NORMAL_INTERVAL: int := 250000000
  const SCROLL_INTERVAL: int := 50000000

  // The clients in the order a tick visits them.
  const MESSAGE: nat := 0
  const ARTIST: nat := 1
  const ALBUM: nat := 2
  const TITLE: nat := 3
  const PROGRESS: nat := 4
  const FILE: nat := 5
  const LINE2: nat := 6
  const CLIENTS: nat := 7

  /** The two lines are shown as one text of twice forty characters. */
  const HALF: nat := 40

  datatype Client = Client(text: string, ready: int, scroll: int, event: int)

  /** One parsed line of a client's message. */
  datatype News = NewText(client: nat, text: string) | NewTime | NewLine1(text: string)

  ghost predicate IsNews(n: News) {
    n.NewText? ==> n.client < CLIENTS
  }

  /** `%40.40s`. */
  function Padded(s: string): (p: string)
    ensures |p| == HALF
  {
    if |s| >= HALF then s[..HALF] else seq(HALF - |s|, _ => ' ') + s
  }

  const CARRIAGE_RETURN: char := 13 as char

  /** `%c%-16.16s`: what fills the line when `text` is shown from `start` on. */
  function Line(text: string, start: nat): (l: string)
    requires start <= |text|
    ensures |l| == 1 + WIDTH
  {
    var rest := text[start..];
    [CARRIAGE_RETURN] + if |rest| >= WIDTH then rest[..WIDTH] else rest + seq(WIDTH - |rest|, _ => ' ')
  }

  /** How many scroll steps a text of this length gets. */
  function ScrollSteps(len: nat): nat {
    if len <= WIDTH then 0 else len
  }

  /** How many ticks a client holds the line from its activation to its release. */
  function Turns(len: nat): nat {
    ScrollSteps(len) + HOLD as nat + 2
  }

  // ----- the seven clients as a value -----

  ghost predicate Seven(cs: seq<Client>) {
    |cs| == CLIENTS
  }

  /** The length of the text client `i` shows. */
  function Len(cs: seq<Client>, i: nat): nat
    requires |cs| == CLIENTS && i < CLIENTS
  {
    if i == LINE2 then 2 * HALF else |cs[i].text|
  }

  ghost predicate Active(cs: seq<Client>, i: nat) {
    i < |cs| && cs[i].ready == 2
  }

  ghost predicate NoneActive(cs: seq<Client>) {
    forall i: nat :: !Active(cs, i)
  }

  /** One active client at most, with what is left to show within its text. */
  ghost predicate Orderly(cs: seq<Client>)
    ensures Orderly(cs) ==> Seven(cs)
  {
    && Seven(cs)
    && (forall i :: 0 <= i < CLIENTS ==> 0 <= cs[i].ready <= 2)
    && (forall i: nat :: Active(cs, i) ==>
          0 <= cs[i].scroll <= ScrollSteps(Len(cs, i)) && 0 <= cs[i].event <= HOLD)
    && (forall i: nat, j: nat :: Active(cs, i) && Active(cs, j) ==> i == j)
  }

  /** How many ticks of its turn a client has still to come. */
  ghost function Due(c: Client, len: nat): int {
    if c.ready == 1 then Turns(len)
    else if c.ready == 2 then c.scroll + c.event + 1
    else 0
  }

  ghost function DueOf(cs: seq<Client>, i: nat): int
    requires Seven(cs) && i < CLIENTS
  {
    Due(cs[i], Len(cs, i))
  }

  ghost function DueSum(cs: seq<Client>): int
    requires Seven(cs)
  {
    DueOf(cs, 0) + DueOf(cs, 1) + DueOf(cs, 2) + DueOf(cs, 3) + DueOf(cs, 4) + DueOf(cs, 5) + DueOf(cs, 6)
  }

  /** A message that ends queues the song texts again, if there is a title. */
  ghost predicate WillRequeue(cs: seq<Client>)
    requires Seven(cs)
  {
    cs[MESSAGE].ready != 0 && cs[TITLE].text != ""
  }

  ghost function SongTurns(cs: seq<Client>): nat
    requires Seven(cs)
  {
    Turns(Len(cs, ARTIST)) + Turns(Len(cs, ALBUM)) + Turns(Len(cs, TITLE))
  }

  /** The ticks until the line is idle, if nothing arrives: the turns of the clients,
      those of the song texts a message will queue again, and the tick that frees a
      line whose owner was pre-empted. */
  ghost function RankOf(cs: seq<Client>, busy: int): int
    requires Seven(cs)
  {
    DueSum(cs)
    + (if WillRequeue(cs) then SongTurns(cs) else 0)
    + (if busy == 1 && NoneActive(cs) then 1 else 0)
  }

  /** A bound from the lengths of the texts alone. */
  ghost function Bound(cs: seq<Client>): int
    requires Seven(cs)
  {
    1 + 2 * SongTurns(cs) + Turns(Len(cs, MESSAGE)) + Turns(Len(cs, PROGRESS)) + Turns(Len(cs, FILE))
    + Turns(Len(cs, LINE2))
  }

  /** One client changes and keeps its text: the sum changes by its share. */
  lemma DueSumUpdate(cs: seq<Client>, i: nat, c: Client)
    requires Seven(cs) && i < CLIENTS && c.text == cs[i].text
    ensures DueSum(cs[i := c]) == DueSum(cs) + Due(c, Len(cs, i)) - DueOf(cs, i)
    ensures SongTurns(cs[i := c]) == SongTurns(cs)
  {
    var cs' := cs[i := c];
    assert forall j :: 0 <= j < CLIENTS ==> Len(cs', j) == Len(cs, j);
    assert forall j :: 0 <= j < CLIENTS && j != i ==> DueOf(cs', j) == DueOf(cs, j);
  }

  /** A client's share of a tick does something. */
  ghost predicate Acts(cs: seq<Client>, busy: int, i: nat)
    requires Seven(cs) && i < CLIENTS
  {
    (cs[i].ready == 1 && busy == 0) || cs[i].ready == 2
  }

  /** The clients after client `i` let go of the line. */
  ghost function Released(cs: seq<Client>, i: nat): (r: seq<Client>)
    requires Seven(cs) && i < CLIENTS
    ensures Seven(r)
    ensures forall j :: 0 <= j < CLIENTS ==> r[j].text == cs[j].text
  {
    var r := cs[i := cs[i].(ready := 0, event := 0)];
    if i == MESSAGE && cs[TITLE].text != "" then
      var t := r[TITLE := r[TITLE].(ready := 1)];
      var a := t[ARTIST := t[ARTIST].(ready := 1)];
      a[ALBUM := a[ALBUM].(ready := 1)]
    else r
  }

  /** The clients after client `i` was served. */
  ghost function Served(cs: seq<Client>, busy: int, i: nat): (r: seq<Client>)
    requires Seven(cs) && i < CLIENTS
    ensures Seven(r)
    ensures forall j :: 0 <= j < CLIENTS ==> r[j].text == cs[j].text
  {
    var c := cs[i];
    if c.ready == 1 && busy == 0 then
      cs[i := c.(ready := 2, scroll := ScrollSteps(Len(cs, i)), event := HOLD)]
    else if c.ready != 2 then cs
    else if c.scroll > 0 then cs[i := c.(scroll := c.scroll - 1)]
    else if c.event > 0 then cs[i := c.(event := c.event - 1, scroll := 0)]
    else Released(cs, i)
  }

  ghost function BusyAfter(cs: seq<Client>, busy: int, i: nat): int
    requires Seven(cs) && i < CLIENTS
  {
    if cs[i].ready == 1 && busy == 0 then 1
    else if cs[i].ready == 2 && cs[i].scroll <= 0 && cs[i].event <= 0 then 0
    else busy
  }

  /** The clients and the busy flag. */
  datatype Line16 = Line16(cs: seq<Client>, busy: int)

  ghost function Serve1(l: Line16, i: nat): (r: Line16)
    requires Seven(l.cs) && i < CLIENTS
    ensures Seven(r.cs)
  {
    Line16(Served(l.cs, l.busy, i), BusyAfter(l.cs, l.busy, i))
  }

  /** What a whole tick does to the clients: each is served in its turn. */
  ghost function AfterTick(l: Line16): (r: Line16)
    requires Seven(l.cs)
    ensures Seven(r.cs)
  {
    AfterRest(AfterSong(l))
  }

  ghost function AfterSong(l: Line16): (r: Line16)
    requires Seven(l.cs)
    ensures Seven(r.cs)
  {
    Serve1(Serve1(Serve1(Serve1(l, MESSAGE), ARTIST), ALBUM), TITLE)
  }

  ghost function AfterRest(l: Line16): (r: Line16)
    requires Seven(l.cs)
    ensures Seven(r.cs)
  {
    Serve1(Serve1(Serve1(l, PROGRESS), FILE), LINE2)
  }

  lemma TakesLine(cs: seq<Client>, i: nat, c: Client)
    requires Orderly(cs) && NoneActive(cs) && i < CLIENTS && cs[i].ready == 1
    requires c == cs[i].(ready := 2, scroll := ScrollSteps(Len(cs, i)), event := HOLD)
    ensures var cs' := cs[i := c];
            Orderly(cs') && Active(cs', i) && RankOf(cs', 1) == RankOf(cs, 0) - 1
  {
    hide DueSum, SongTurns;
    var cs' := cs[i := c];
    DueSumUpdate(cs, i, c);
    assert !Active(cs, i) && Active(cs', i);
    assert forall j: nat :: j != i ==> (Active(cs', j) <==> Active(cs, j));
  }

  lemma ScrollInText(cs: seq<Client>, i: nat)
    requires Orderly(cs) && Active(cs, i)
    ensures i < CLIENTS && 0 <= cs[i].scroll <= Len(cs, i) && 0 <= cs[i].event
  {
  }

  lemma KeepsLine(cs: seq<Client>, i: nat, c: Client)
    requires Orderly(cs) && Active(cs, i)
    requires (c == cs[i].(scroll := cs[i].scroll - 1) && cs[i].scroll > 0)
          || (c == cs[i].(event := cs[i].event - 1) && cs[i].event > 0)
    ensures var cs' := cs[i := c];
            Orderly(cs') && Active(cs', i) && RankOf(cs', 1) == RankOf(cs, 1) - 1
  {
    hide DueSum, SongTurns;
    var cs' := cs[i := c];
    DueSumUpdate(cs, i, c);
    assert Active(cs', i);
    assert forall j: nat :: Active(cs', j) <==> Active(cs, j);
  }

  /** Letting go alone. */
  lemma LetsGo(cs: seq<Client>, i: nat)
    requires Orderly(cs) && Active(cs, i) && cs[i].scroll == 0 && cs[i].event == 0
    ensures var r := cs[i := cs[i].(ready := 0, event := 0)];
            && Orderly(r) && NoneActive(r)
            && DueSum(r) == DueSum(cs) - 1 && SongTurns(r) == SongTurns(cs)
  {
    hide DueSum, SongTurns;
    var r := cs[i := cs[i].(ready := 0, event := 0)];
    DueSumUpdate(cs, i, r[i]);
    assert forall j: nat :: Active(r, j) ==> Active(cs, j);
  }

  /** A client is queued again. */
  lemma Queued(cs: seq<Client>, i: nat)
    requires Orderly(cs) && NoneActive(cs) && i < CLIENTS
    ensures var r := cs[i := cs[i].(ready := 1)];
            && Orderly(r) && NoneActive(r)
            && DueSum(r) <= DueSum(cs) + Turns(Len(cs, i)) && SongTurns(r) == SongTurns(cs)
            && (forall j :: 0 <= j < CLIENTS ==> Len(r, j) == Len(cs, j))
  {
    hide DueSum, SongTurns;
    var r := cs[i := cs[i].(ready := 1)];
    assert !Active(cs, i);
    DueSumUpdate(cs, i, r[i]);
    assert forall j: nat :: Active(r, j) ==> Active(cs, j);
  }

  lemma FreesLine(cs: seq<Client>, i: nat)
    requires Orderly(cs) && Active(cs, i) && cs[i].scroll == 0 && cs[i].event == 0
    ensures var cs' := Released(cs, i);
            Orderly(cs') && NoneActive(cs') && RankOf(cs', 0) < RankOf(cs, 1)
  {
    hide DueSum, Orderly, Turns, Len;
    var r := cs[i := cs[i].(ready := 0, event := 0)];
    LetsGo(cs, i);
    if i == MESSAGE && cs[TITLE].text != "" {
      var t := r[TITLE := r[TITLE].(ready := 1)];
      var a := t[ARTIST := t[ARTIST].(ready := 1)];
      Queued(r, TITLE);
      Queued(t, ARTIST);
      Queued(a, ALBUM);
    }
  }

  lemma RankBounds(cs: seq<Client>, busy: int)
    requires Orderly(cs)
    ensures 0 <= RankOf(cs, busy) <= Bound(cs)
  {
    hide DueOf, Turns, Len, Orderly;
    AllInRange(cs);
  }

  lemma AllInRange(cs: seq<Client>)
    requires Orderly(cs)
    ensures forall i :: 0 <= i < CLIENTS ==> 0 <= DueOf(cs, i) <= Turns(Len(cs, i))
  {
    forall i | 0 <= i < CLIENTS ensures 0 <= DueOf(cs, i) <= Turns(Len(cs, i)) {
      DueInRange(cs, i);
    }
  }

  lemma DueInRange(cs: seq<Client>, i: nat)
    requires Orderly(cs) && i < CLIENTS
    ensures 0 <= DueOf(cs, i) <= Turns(Len(cs, i))
  {
    if cs[i].ready == 2 {
      assert Active(cs, i);
    }
  }

  ghost predicate AllReady0(cs: seq<Client>) {
    forall i :: 0 <= i < |cs| ==> cs[i].ready == 0
  }

  lemma RankZero(cs: seq<Client>, busy: int)
    requires Orderly(cs) && (busy == 0 || busy == 1)
    requires busy == 0 ==> NoneActive(cs)
    ensures RankOf(cs, busy) == 0 <==> busy == 0 && AllReady0(cs)
  {
    assert forall i :: 0 <= i < CLIENTS ==> DueOf(cs, i) >= 0 && (DueOf(cs, i) == 0 <==> cs[i].ready == 0);
    if RankOf(cs, busy) == 0 {
      forall i | 0 <= i < CLIENTS ensures cs[i].ready == 0 { assert DueOf(cs, i) == 0; }
    }
  }

  /** When a tick finds nobody to serve, the line is idle or without an owner. */
  lemma NothingToDo(cs: seq<Client>, busy: int)
    requires Orderly(cs) && (busy == 0 || busy == 1)
    requires forall j :: 0 <= j < CLIENTS ==> !Acts(cs, busy, j)
    ensures NoneActive(cs) && (busy == 0 ==> AllReady0(cs))
  {
    forall j | 0 <= j < CLIENTS ensures cs[j].ready != 2 && (busy == 0 ==> cs[j].ready == 0) {
      assert !Acts(cs, busy, j);
    }
  }

  /** A tick on an idle line leaves it so. */
  lemma IdleStays(l: Line16)
    requires Seven(l.cs) && AllReady0(l.cs) && l.busy == 0
    ensures AfterTick(l) == l
  {
    assert forall i :: 0 <= i < CLIENTS ==> Serve1(l, i) == l;
  }

  /** While a client has the line, serving another one does nothing. */
  lemma OthersWait(cs: seq<Client>, i: nat, j: nat)
    requires Orderly(cs) && Active(cs, i) && j < CLIENTS && j != i
    ensures Serve1(Line16(cs, 1), j) == Line16(cs, 1)
  {
    assert !Active(cs, j);
  }

  lemma OnlyOneActs(l: Line16, l': Line16, i: nat)
    requires Seven(l.cs) && Seven(l'.cs) && i < CLIENTS && Serve1(l, i) == l'
    requires forall j :: 0 <= j < CLIENTS && j != i ==> Serve1(l, j) == l
    requires forall j :: 0 <= j < CLIENTS && j != i ==> Serve1(l', j) == l'
    ensures AfterTick(l) == l'
  {
  }

  /** The owner of the line after one more step of its turn. */
  ghost function Advanced(c: Client): Client {
    if c.scroll > 0 then c.(scroll := c.scroll - 1) else c.(event := c.event - 1)
  }

  lemma OwnerTick(cs: seq<Client>, i: nat)
    requires Orderly(cs) && Active(cs, i) && DueOf(cs, i) > 1
    ensures AfterTick(Line16(cs, 1)) == Line16(cs[i := Advanced(cs[i])], 1)
    ensures Orderly(cs[i := Advanced(cs[i])]) && Active(cs[i := Advanced(cs[i])], i)
  {
    var cs' := cs[i := Advanced(cs[i])];
    KeepsLine(cs, i, Advanced(cs[i]));
    forall j | 0 <= j < CLIENTS && j != i
      ensures Serve1(Line16(cs, 1), j) == Line16(cs, 1) && Serve1(Line16(cs', 1), j) == Line16(cs', 1)
    {
      OthersWait(cs, i, j);
      OthersWait(cs', i, j);
    }
    OnlyOneActs(Line16(cs, 1), Line16(cs', 1), i);
  }

  /** Ticks do not take the line away: a client that has it goes on by exactly one
      step of its turn, and nobody else moves, until its turn is over. */
  lemma TurnGoesOn(l: Line16, i: nat)
    requires Orderly(l.cs) && l.busy == 1 && Active(l.cs, i) && DueOf(l.cs, i) > 1
    ensures var l' := AfterTick(l);
            && l'.busy == 1 && Orderly(l'.cs) && Active(l'.cs, i)
            && DueOf(l'.cs, i) == DueOf(l.cs, i) - 1
            && forall j :: 0 <= j < CLIENTS && j != i ==> l'.cs[j] == l.cs[j]
  {
    OwnerTick(l.cs, i);
    assert l == Line16(l.cs, 1);
  }

  /** The client waits for the line, or its turn has just begun. */
  ghost predicate Waits(cs: seq<Client>, i: nat)
    requires Seven(cs) && i < CLIENTS
  {
    || cs[i].ready == 1
    || (cs[i].ready == 2 && cs[i].scroll == ScrollSteps(Len(cs, i)) && cs[i].event == HOLD)
  }

  lemma OtherServed(l: Line16, i: nat, j: nat)
    requires Seven(l.cs) && i < CLIENTS && j < CLIENTS && i != j && Waits(l.cs, i)
    requires j == MESSAGE ==> l.cs[i].ready == 1
    ensures Waits(Serve1(l, j).cs, i) && (l.cs[i].ready == 1 ==> Serve1(l, j).cs[i].ready == 1)
  {
  }

  lemma SelfServed(l: Line16, i: nat)
    requires Seven(l.cs) && i < CLIENTS && l.cs[i].ready == 1
    ensures Waits(Serve1(l, i).cs, i)
  {
  }

  /** Nobody is passed over: a pending client stays pending until it gets the line, and
      then it gets its whole turn. */
  lemma NobodySkipped(l: Line16, i: nat)
    requires Seven(l.cs) && i < CLIENTS && l.cs[i].ready == 1
    ensures Waits(AfterTick(l).cs, i)
  {
    var l1 := Serve1(l, MESSAGE);
    ServedWaits(l, i, MESSAGE);
    var l2 := Serve1(l1, ARTIST);
    ServedWaits(l1, i, ARTIST);
    var l3 := Serve1(l2, ALBUM);
    ServedWaits(l2, i, ALBUM);
    var l4 := Serve1(l3, TITLE);
    ServedWaits(l3, i, TITLE);
    var l5 := Serve1(l4, PROGRESS);
    ServedWaits(l4, i, PROGRESS);
    var l6 := Serve1(l5, FILE);
    ServedWaits(l5, i, FILE);
    ServedWaits(l6, i, LINE2);
  }

  /** Before its own place in the order the client is pending, after it it waits. */
  lemma ServedWaits(l: Line16, i: nat, j: nat)
    requires Seven(l.cs) && i < CLIENTS && j < CLIENTS
    requires if j <= i then l.cs[i].ready == 1 else Waits(l.cs, i)
    ensures Waits(Serve1(l, j).cs, i) && (j < i ==> Serve1(l, j).cs[i].ready == 1)
  {
    if i == j {
      SelfServed(l, i);
    } else {
      OtherServed(l, i, j);
    }
  }

  // ----- ticks one after the other -----

  /** One client at most has the line, and then it is busy. */
  ghost predicate InOrder(l: Line16)
    ensures InOrder(l) ==> Seven(l.cs)
  {
    Orderly(l.cs) && (l.busy == 0 || l.busy == 1) && (l.busy == 0 ==> NoneActive(l.cs))
  }

  ghost predicate IsIdle(l: Line16) {
    l.busy == 0 && AllReady0(l.cs)
  }

  /** A busy line that nobody has is freed. */
  ghost function Freed(l: Line16): Line16 {
    if NoneActive(l.cs) then l.(busy := 0) else l
  }

  ghost function TickOf(l: Line16): (r: Line16)
    requires Seven(l.cs)
    ensures Seven(r.cs)
  {
    Freed(AfterTick(l))
  }

  ghost function Ticks(l: Line16, n: nat): (r: Line16)
    requires Seven(l.cs)
    ensures Seven(r.cs)
  {
    if n == 0 then l else TickOf(Ticks(l, n - 1))
  }

  /** Serving a client that acts lowers the rank, serving another does nothing. */
  lemma ServeLowers(l: Line16, i: nat)
    requires InOrder(l) && i < CLIENTS
    ensures var r := Serve1(l, i);
            && InOrder(r)
            && (if Acts(l.cs, l.busy, i) then RankOf(r.cs, r.busy) < RankOf(l.cs, l.busy) else r == l)
  {
    hide RankOf;
    var c := l.cs[i];
    if c.ready == 1 && l.busy == 0 {
      TakesLine(l.cs, i, c.(ready := 2, scroll := ScrollSteps(Len(l.cs, i)), event := HOLD));
    } else if c.ready == 2 {
      assert Active(l.cs, i) && l.busy == 1;
      if c.scroll > 0 {
        KeepsLine(l.cs, i, c.(scroll := c.scroll - 1));
      } else if c.event > 0 {
        KeepsLine(l.cs, i, c.(event := c.event - 1));
        assert c.(event := c.event - 1, scroll := 0) == c.(event := c.event - 1);
      } else {
        FreesLine(l.cs, i);
      }
    }
  }

  /** Up to client `n` a tick that found `l` did nothing, or the line is nearer to idle. */
  ghost predicate Nearer(l: Line16, now: Line16, n: nat)
    requires Seven(l.cs) && Seven(now.cs) && n <= CLIENTS
  {
    || (now == l && forall j :: 0 <= j < n ==> !Acts(l.cs, l.busy, j))
    || RankOf(now.cs, now.busy) < RankOf(l.cs, l.busy)
  }

  lemma NextNearer(l: Line16, now: Line16, i: nat)
    requires InOrder(now) && Seven(l.cs) && i < CLIENTS && Nearer(l, now, i)
    ensures InOrder(Serve1(now, i)) && Nearer(l, Serve1(now, i), i + 1)
  {
    hide RankOf, Acts, Orderly;
    ServeLowers(now, i);
  }

  lemma NearerAtFirst(l: Line16)
    requires Seven(l.cs)
    ensures Nearer(l, l, 0)
  {
  }

  lemma SongNearer(l: Line16)
    requires InOrder(l)
    ensures InOrder(AfterSong(l)) && Nearer(l, AfterSong(l), TITLE + 1)
  {
    hide Nearer, InOrder, Serve1;
    NearerAtFirst(l);
    var l1 := Serve1(l, MESSAGE);
    NextNearer(l, l, MESSAGE);
    var l2 := Serve1(l1, ARTIST);
    NextNearer(l, l1, ARTIST);
    var l3 := Serve1(l2, ALBUM);
    NextNearer(l, l2, ALBUM);
    NextNearer(l, l3, TITLE);
  }

  lemma RestNearer(l: Line16, now: Line16)
    requires InOrder(now) && Seven(l.cs) && Nearer(l, now, TITLE + 1)
    ensures InOrder(AfterRest(now)) && Nearer(l, AfterRest(now), CLIENTS)
  {
    hide Nearer, InOrder, Serve1;
    var l1 := Serve1(now, PROGRESS);
    NextNearer(l, now, PROGRESS);
    var l2 := Serve1(l1, FILE);
    NextNearer(l, l1, FILE);
    NextNearer(l, l2, LINE2);
  }

  lemma FreedLowers(l: Line16)
    requires InOrder(l)
    ensures InOrder(Freed(l)) && RankOf(Freed(l).cs, Freed(l).busy) <= RankOf(l.cs, l.busy)
    ensures NoneActive(l.cs) && l.busy == 1 ==> RankOf(Freed(l).cs, Freed(l).busy) < RankOf(l.cs, l.busy)
  {
    hide DueSum, WillRequeue, SongTurns, Orderly;
  }

  /** Every tick leaves the line idle or lowers the rank. */
  lemma TickLowers(l: Line16)
    requires InOrder(l)
    ensures var r := TickOf(l);
            && InOrder(r)
            && (IsIdle(r) || RankOf(r.cs, r.busy) < RankOf(l.cs, l.busy))
  {
    hide RankOf, Orderly, Acts, AfterSong, AfterRest;
    SongNearer(l);
    RestNearer(l, AfterSong(l));
    var now := AfterTick(l);
    FreedLowers(now);
    if now == l && forall j :: 0 <= j < CLIENTS ==> !Acts(l.cs, l.busy, j) {
      NothingToDo(l.cs, l.busy);
    }
  }

  lemma {:induction false} TicksFromFirst(l: Line16, n: nat)
    requires Seven(l.cs)
    ensures Ticks(TickOf(l), n) == Ticks(l, n + 1)
  {
    hide TickOf;
    if n == 0 {
      assert Ticks(l, 0) == l;
    } else {
      TicksFromFirst(l, n - 1);
    }
  }

  /** The client has just got the line. */
  ghost predicate Starts(cs: seq<Client>, i: nat)
    requires Seven(cs) && i < CLIENTS
  {
    cs[i].ready == 2 && cs[i].scroll == ScrollSteps(Len(cs, i)) && cs[i].event == HOLD
  }

  /** After `n` ticks the client gets the line, and it has it for its whole turn. */
  ghost predicate TurnFrom(l: Line16, i: nat, n: nat)
    requires Seven(l.cs) && i < CLIENTS
  {
    && Starts(Ticks(l, n).cs, i)
    && forall m: nat :: n <= m < n + Turns(Len(l.cs, i)) - 1 ==> HasLineAt(l, i, m)
  }

  ghost predicate HasLineAt(l: Line16, i: nat, m: nat)
    requires Seven(l.cs) && i < CLIENTS
  {
    Active(Ticks(l, m).cs, i)
  }

  /** The whole turn of the client is over within `b` ticks. */
  ghost predicate ServedWithin(l: Line16, i: nat, b: int)
    requires Seven(l.cs) && i < CLIENTS
  {
    exists n: nat :: TurnFrom(l, i, n) && n + Turns(Len(l.cs, i)) - 1 <= b
  }

  lemma SameLength(l: Line16, i: nat)
    requires Seven(l.cs) && i < CLIENTS
    ensures Len(TickOf(l).cs, i) == Len(l.cs, i)
  {
    hide Served;
  }

  /** A pending client gets the line. */
  lemma {:induction false} PendingStarts(l: Line16, i: nat) returns (n: nat)
    requires InOrder(l) && i < CLIENTS && l.cs[i].ready == 1
    ensures var s := Ticks(l, n);
            && InOrder(s) && Starts(s.cs, i) && s.busy == 1
            && Len(s.cs, i) == Len(l.cs, i)
            && RankOf(s.cs, s.busy) + n <= RankOf(l.cs, l.busy)
    decreases RankOf(l.cs, l.busy)
  {
    hide RankOf, TickOf;
    var r := TickOf(l);
    NotSkipped(l, i);
    TickLowers(l);
    SameLength(l, i);
    RankBounds(r.cs, r.busy);
    assert Ticks(l, 1) == r by { assert Ticks(l, 0) == l; }
    if r.cs[i].ready == 1 {
      n := PendingStarts(r, i);
      TicksFromFirst(l, n);
      n := n + 1;
    } else {
      assert Active(r.cs, i);
      n := 1;
    }
  }

  lemma NotSkipped(l: Line16, i: nat)
    requires InOrder(l) && i < CLIENTS && l.cs[i].ready == 1
    ensures Waits(TickOf(l).cs, i) && !IsIdle(TickOf(l))
  {
    hide AfterTick;
    NobodySkipped(l, i);
  }

  /** The owner keeps the line while its turn lasts. */
  lemma {:induction false} TurnLasts(s: Line16, i: nat, k: nat)
    requires InOrder(s) && s.busy == 1 && Active(s.cs, i) && k < DueOf(s.cs, i)
    ensures var r := Ticks(s, k);
            InOrder(r) && r.busy == 1 && Active(r.cs, i) && DueOf(r.cs, i) == DueOf(s.cs, i) - k
  {
    hide InOrder, TickOf, DueOf;
    if k > 0 {
      TurnLasts(s, i, k - 1);
      OneMoreTick(Ticks(s, k - 1), i);
    }
  }

  lemma OneMoreTick(r: Line16, i: nat)
    requires InOrder(r) && r.busy == 1 && Active(r.cs, i) && DueOf(r.cs, i) > 1
    ensures var t := TickOf(r);
            InOrder(t) && t.busy == 1 && Active(t.cs, i) && DueOf(t.cs, i) == DueOf(r.cs, i) - 1
  {
    hide AfterTick, DueOf, Orderly;
    TurnGoesOn(r, i);
    assert !NoneActive(AfterTick(r).cs);
  }

  lemma {:induction false} TicksAdd(l: Line16, n: nat, k: nat)
    requires Seven(l.cs)
    ensures Ticks(l, n + k) == Ticks(Ticks(l, n), k)
  {
    hide TickOf;
    if k > 0 {
      TicksAdd(l, n, k - 1);
    }
  }

  lemma ShareOfRank(cs: seq<Client>, busy: int, i: nat)
    requires Orderly(cs) && i < CLIENTS
    ensures DueOf(cs, i) <= RankOf(cs, busy)
  {
    hide DueOf, SongTurns;
    AllInRange(cs);
  }

  /** Nobody starves: without arrivals every pending client gets the line and keeps it for
      its whole turn, within the bound computed from the lengths of the texts. */
  lemma PendingIsServed(l: Line16, i: nat)
    requires InOrder(l) && i < CLIENTS && l.cs[i].ready == 1
    ensures ServedWithin(l, i, Bound(l.cs))
  {
    hide RankOf, Bound, Ticks, InOrder, Orderly, ScrollSteps;
    var n := PendingStarts(l, i);
    var s := Ticks(l, n);
    assert Active(s.cs, i) && DueOf(s.cs, i) == Turns(Len(l.cs, i)) - 1;
    forall m: nat | n <= m < n + Turns(Len(l.cs, i)) - 1 ensures HasLineAt(l, i, m) {
      TurnLasts(s, i, m - n);
      TicksAdd(l, n, m - n);
    }
    assert TurnFrom(l, i, n);
    OrderlyOf(s);
    OrderlyOf(l);
    ShareOfRank(s.cs, s.busy, i);
    RankBounds(l.cs, l.busy);
  }

  // ----- a message and the song -----

  predicate IsSong(i: nat) {
    i == TITLE || i == ARTIST || i == ALBUM
  }

  /** The message lets go of the line at tick `n`. */
  ghost predicate MessageEnds(l: Line16, n: nat)
    requires Seven(l.cs)
  {
    n > 0 && Active(Ticks(l, n - 1).cs, MESSAGE) && Ticks(l, n).cs[MESSAGE].ready == 0
  }

  /** After the message's turn the client gets the line for a whole turn of its own, all
      within `b` ticks. */
  ghost predicate ServedAfterMessage(l: Line16, i: nat, b: int)
    requires Seven(l.cs) && i < CLIENTS
  {
    exists n: nat, m: nat ::
      MessageEnds(l, n) && n <= m && TurnFrom(l, i, m) && m + Turns(Len(l.cs, i)) - 1 <= b
  }

  /** A message that lets go leaves the song texts waiting, or one of them at the line. */
  lemma SongQueued(l: Line16, i: nat)
    requires InOrder(l) && l.busy == 1 && Active(l.cs, MESSAGE) && DueOf(l.cs, MESSAGE) == 1
    requires l.cs[TITLE].text != "" && IsSong(i)
    ensures Waits(TickOf(l).cs, i) && TickOf(l).cs[MESSAGE].ready == 0
  {
    hide Served, BusyAfter;
    var l1 := Serve1(l, MESSAGE);
    MessageReleased(l, i);
    MessageRests(l1, ARTIST);
    var l2 := Serve1(l1, ARTIST);
    ServedWaits(l1, i, ARTIST);
    MessageRests(l2, ALBUM);
    var l3 := Serve1(l2, ALBUM);
    ServedWaits(l2, i, ALBUM);
    MessageRests(l3, TITLE);
    var l4 := Serve1(l3, TITLE);
    ServedWaits(l3, i, TITLE);
    MessageRests(l4, PROGRESS);
    var l5 := Serve1(l4, PROGRESS);
    ServedWaits(l4, i, PROGRESS);
    MessageRests(l5, FILE);
    var l6 := Serve1(l5, FILE);
    ServedWaits(l5, i, FILE);
    MessageRests(l6, LINE2);
    ServedWaits(l6, i, LINE2);
  }

  lemma MessageReleased(l: Line16, i: nat)
    requires InOrder(l) && l.busy == 1 && Active(l.cs, MESSAGE) && DueOf(l.cs, MESSAGE) == 1
    requires l.cs[TITLE].text != "" && IsSong(i)
    ensures var r := Serve1(l, MESSAGE);
            r.cs[i].ready == 1 && r.cs[MESSAGE].ready == 0 && r.busy == 0
  {
  }

  /** Nobody but a message that ends makes an idle client pending. */
  lemma MessageRests(l: Line16, j: nat)
    requires Seven(l.cs) && j < CLIENTS && j != MESSAGE && l.cs[MESSAGE].ready == 0
    ensures Serve1(l, j).cs[MESSAGE].ready == 0
  {
  }

  lemma TickFalls(l: Line16)
    requires InOrder(l) && !IsIdle(TickOf(l))
    ensures InOrder(TickOf(l)) && RankOf(TickOf(l).cs, TickOf(l).busy) + 1 <= RankOf(l.cs, l.busy)
  {
    hide RankOf, TickOf, InOrder;
    TickLowers(l);
  }

  /** The owner's turn runs down to its last tick. */
  lemma {:induction false} TurnRunsDown(s: Line16, i: nat) returns (k: nat)
    requires InOrder(s) && s.busy == 1 && Active(s.cs, i) && 0 < DueOf(s.cs, i)
    ensures var r := Ticks(s, k);
            && InOrder(r) && r.busy == 1 && Active(r.cs, i) && DueOf(r.cs, i) == 1
            && (forall j :: 0 <= j < CLIENTS ==> r.cs[j].text == s.cs[j].text)
            && RankOf(r.cs, r.busy) + k <= RankOf(s.cs, s.busy)
    decreases DueOf(s.cs, i)
  {
    hide RankOf, TickOf, DueOf, InOrder, Len;
    if DueOf(s.cs, i) == 1 {
      k := 0;
    } else {
      var r := TickOf(s);
      OneMoreTick(s, i);
      NotIdle(r, i);
      TickFalls(s);
      TextsStay(s);
      k := TurnRunsDown(r, i);
      TicksFromFirst(s, k);
      k := k + 1;
    }
  }

  lemma NotIdle(l: Line16, i: nat)
    requires Active(l.cs, i)
    ensures !IsIdle(l)
  {
    assert l.cs[i].ready == 2;
  }

  lemma TextsStay(l: Line16)
    requires Seven(l.cs)
    ensures forall j :: 0 <= j < CLIENTS ==> TickOf(l).cs[j].text == l.cs[j].text
  {
    hide Served;
  }

  lemma {:induction false} TextsStayOn(l: Line16, n: nat)
    requires Seven(l.cs)
    ensures forall j :: 0 <= j < CLIENTS ==> Ticks(l, n).cs[j].text == l.cs[j].text
  {
    hide TickOf;
    if n > 0 {
      TextsStayOn(l, n - 1);
      TextsStay(Ticks(l, n - 1));
    }
  }

  /** A waiting client gets the line now or later. */
  lemma WaitingStarts(l: Line16, i: nat) returns (n: nat)
    requires InOrder(l) && i < CLIENTS && Waits(l.cs, i)
    ensures var s := Ticks(l, n);
            && InOrder(s) && Starts(s.cs, i) && s.busy == 1
            && Len(s.cs, i) == Len(l.cs, i)
            && RankOf(s.cs, s.busy) + n <= RankOf(l.cs, l.busy)
  {
    hide RankOf, TickOf, Orderly;
    if l.cs[i].ready == 1 {
      n := PendingStarts(l, i);
    } else {
      n := 0;
      assert Active(l.cs, i);
    }
  }

  lemma WaitsNotIdle(l: Line16, i: nat)
    requires Seven(l.cs) && i < CLIENTS && Waits(l.cs, i)
    ensures !IsIdle(l)
  {
    assert l.cs[i].ready != 0;
  }

  /** From the start of its turn on the client keeps the line for all of it. */
  lemma WholeTurn(l: Line16, i: nat, n: nat)
    requires Seven(l.cs) && i < CLIENTS
    requires var s := Ticks(l, n); InOrder(s) && s.busy == 1 && Starts(s.cs, i) && Len(s.cs, i) == Len(l.cs, i)
    ensures TurnFrom(l, i, n) && DueOf(Ticks(l, n).cs, i) == Turns(Len(l.cs, i)) - 1
  {
    hide Ticks, InOrder, Orderly, ScrollSteps;
    var s := Ticks(l, n);
    assert Active(s.cs, i) && DueOf(s.cs, i) == Turns(Len(l.cs, i)) - 1;
    forall m: nat | n <= m < n + Turns(Len(l.cs, i)) - 1 ensures HasLineAt(l, i, m) {
      TurnLasts(s, i, m - n);
      TicksAdd(l, n, m - n);
    }
  }

  /** The tick at which a message that is pending or has the line lets go, if there is a
      title: the song texts wait then. */
  lemma MessageLetsGo(l: Line16) returns (n: nat)
    requires InOrder(l) && l.cs[MESSAGE].ready != 0 && l.cs[TITLE].text != ""
    ensures var r := Ticks(l, n);
            && MessageEnds(l, n) && InOrder(r) && Waits(r.cs, TITLE) && Waits(r.cs, ARTIST) && Waits(r.cs, ALBUM)
            && RankOf(r.cs, r.busy) + n <= RankOf(l.cs, l.busy)
  {
    hide RankOf, TickOf, Orderly, DueOf, Waits, Starts;
    var a := MessageStarts(l);
    var s := Ticks(l, a);
    var k := TurnRunsDown(s, MESSAGE);
    TicksAdd(l, a, k);
    TextsStayOn(l, a + k);
    var r := Ticks(l, a + k);
    SongQueued(r, TITLE);
    SongQueued(r, ARTIST);
    SongQueued(r, ALBUM);
    WaitsNotIdle(TickOf(r), TITLE);
    TickFalls(r);
    n := a + k + 1;
    assert Ticks(l, n) == TickOf(r);
  }

  lemma MessageStarts(l: Line16) returns (n: nat)
    requires InOrder(l) && l.cs[MESSAGE].ready != 0
    ensures var s := Ticks(l, n);
            && InOrder(s) && s.busy == 1 && Active(s.cs, MESSAGE) && 0 < DueOf(s.cs, MESSAGE)
            && RankOf(s.cs, s.busy) + n <= RankOf(l.cs, l.busy)
  {
    hide RankOf, TickOf;
    if l.cs[MESSAGE].ready == 1 {
      n := PendingStarts(l, MESSAGE);
      assert Active(Ticks(l, n).cs, MESSAGE);
    } else {
      n := 0;
      assert Active(l.cs, MESSAGE);
    }
  }

  /** A message gives way to the song: when there is a title, then title, artist and album
      each get the line for a whole turn after the message's, though they were idle, all
      within the bound. */
  lemma MessageBringsSong(l: Line16, i: nat)
    requires InOrder(l) && l.cs[MESSAGE].ready != 0 && l.cs[TITLE].text != "" && IsSong(i)
    ensures ServedAfterMessage(l, i, Bound(l.cs))
  {
    hide RankOf, Ticks, InOrder, Orderly, Waits, Starts, Bound, DueOf, TurnFrom, MessageEnds;
    var n := MessageLetsGo(l);
    var r := Ticks(l, n);
    var k := WaitingStarts(r, i);
    TicksAdd(l, n, k);
    TextsStayOn(l, n);
    WholeTurn(l, i, n + k);
    var s := Ticks(l, n + k);
    OrderlyOf(s);
    OrderlyOf(l);
    ShareOfRank(s.cs, s.busy, i);
    RankBounds(l.cs, l.busy);
    assert MessageEnds(l, n) && n <= n + k && TurnFrom(l, i, n + k);
  }

  /** Only a message that ends over a title makes an idle client pending, and only the
      song texts. */
  ghost predicate StaysAside(l: Line16, i: nat)
    requires Seven(l.cs) && i < CLIENTS
  {
    l.cs[i].ready == 0 && (l.cs[TITLE].text == "" || l.cs[MESSAGE].ready == 0 || !IsSong(i))
  }

  lemma ServedAside(l: Line16, i: nat, j: nat)
    requires Seven(l.cs) && i < CLIENTS && j < CLIENTS && StaysAside(l, i)
    ensures StaysAside(Serve1(l, j), i)
  {
  }

  lemma TickAside(l: Line16, i: nat)
    requires Seven(l.cs) && i < CLIENTS && StaysAside(l, i)
    ensures StaysAside(TickOf(l), i)
  {
    hide Serve1;
    var l1 := Serve1(l, MESSAGE);
    ServedAside(l, i, MESSAGE);
    var l2 := Serve1(l1, ARTIST);
    ServedAside(l1, i, ARTIST);
    var l3 := Serve1(l2, ALBUM);
    ServedAside(l2, i, ALBUM);
    var l4 := Serve1(l3, TITLE);
    ServedAside(l3, i, TITLE);
    var l5 := Serve1(l4, PROGRESS);
    ServedAside(l4, i, PROGRESS);
    var l6 := Serve1(l5, FILE);
    ServedAside(l5, i, FILE);
    ServedAside(l6, i, LINE2);
  }

  /** Without a title, without a message, or outside the song, an idle client stays idle. */
  lemma {:induction false} IdleWithoutTitle(l: Line16, i: nat, n: nat)
    requires Seven(l.cs) && i < CLIENTS && l.cs[i].ready == 0
    requires l.cs[TITLE].text == "" || l.cs[MESSAGE].ready == 0 || !IsSong(i)
    ensures StaysAside(Ticks(l, n), i)
  {
    hide TickOf;
    if n > 0 {
      IdleWithoutTitle(l, i, n - 1);
      TickAside(Ticks(l, n - 1), i);
    }
  }

  // ----- what is seen of a turn -----

  /** A text longer than the line is scrolled from its start to its end, one character a
      tick, and then held for ten ticks; a shorter one is only held. */
  lemma {:induction false} TurnShows(s: Line16, i: nat, k: nat)
    requires InOrder(s) && s.busy == 1 && i < CLIENTS && Starts(s.cs, i)
    requires k <= (if Len(s.cs, i) > 16 then Len(s.cs, i) else 0) + 10
    ensures var c, shown := Ticks(s, k).cs[i], if Len(s.cs, i) > 16 then Len(s.cs, i) else 0;
            && InOrder(Ticks(s, k)) && Ticks(s, k).busy == 1 && c.ready == 2
            && c.scroll == (if k < shown then shown - k else 0)
            && c.event == (if k < shown then 10 else 10 - (k - shown))
            && Len(Ticks(s, k).cs, i) == Len(s.cs, i)
  {
    hide InOrder, TickOf, Len;
    if k > 0 {
      TurnShows(s, i, k - 1);
      AdvanceTick(Ticks(s, k - 1), i);
    }
  }

  lemma AdvanceTick(r: Line16, i: nat)
    requires InOrder(r) && r.busy == 1 && i < CLIENTS && r.cs[i].ready == 2
    requires r.cs[i].scroll >= 0 && r.cs[i].event >= 0 && r.cs[i].scroll + r.cs[i].event > 0
    ensures var t := TickOf(r);
            && InOrder(t) && t.busy == 1 && Len(t.cs, i) == Len(r.cs, i)
            && t.cs[i] == if r.cs[i].scroll > 0 then r.cs[i].(scroll := r.cs[i].scroll - 1)
                          else r.cs[i].(event := r.cs[i].event - 1)
  {
    hide AfterTick, Orderly;
    assert Active(r.cs, i) && r == Line16(r.cs, 1);
    OwnerTick(r.cs, i);
    assert !NoneActive(AfterTick(r).cs);
  }

  lemma EveryoneServed(l: Line16, n: nat)
    requires InOrder(l) && n >= Bound(l.cs)
    ensures forall i :: 0 <= i < CLIENTS && l.cs[i].ready == 1 ==> ServedWithin(l, i, n)
  {
    hide TurnFrom, Bound, InOrder;
    forall i | 0 <= i < CLIENTS && l.cs[i].ready == 1 ensures ServedWithin(l, i, n) {
      PendingIsServed(l, i);
    }
  }

  lemma SongServed(l: Line16, n: nat)
    requires InOrder(l) && n >= Bound(l.cs)
    ensures l.cs[MESSAGE].ready != 0 && l.cs[TITLE].text != "" ==>
              forall i :: 0 <= i < CLIENTS && IsSong(i) ==> ServedAfterMessage(l, i, n)
  {
    hide TurnFrom, Bound, InOrder, MessageEnds;
    if l.cs[MESSAGE].ready != 0 && l.cs[TITLE].text != "" {
      forall i | 0 <= i < CLIENTS && IsSong(i) ensures ServedAfterMessage(l, i, n) {
        MessageBringsSong(l, i);
        var a: nat, m: nat :|
          MessageEnds(l, a) && a <= m && TurnFrom(l, i, m) && m + Turns(Len(l.cs, i)) - 1 <= Bound(l.cs);
        assert MessageEnds(l, a) && a <= m && TurnFrom(l, i, m);
      }
    }
  }

  lemma OrderlyOf(l: Line16)
    requires InOrder(l)
    ensures Orderly(l.cs)
  {
  }

  /** The text a client has after the news, `text` before. */
  ghost function TextAfter(news: seq<News>, client: nat, text: string): string {
    if news == [] then text
    else
      var last := news[|news| - 1];
      if last.NewText? && last.client == client then last.text
      else TextAfter(news[..|news| - 1], client, text)
  }

  ghost predicate AreNews(news: seq<News>) {
    forall i :: 0 <= i < |news| ==> IsNews(news[i])
  }

  /** Named in the news. */
  ghost predicate Named(news: seq<News>, client: nat) {
    exists k :: 0 <= k < |news| && news[k].NewText? && news[k].client == client
  }

  /** The clients after the news, one piece after the other. */
  ghost function AfterNews(cs: seq<Client>, news: seq<News>): (r: seq<Client>)
    requires Seven(cs) && AreNews(news)
    ensures Seven(r)
  {
    if news == [] then cs
    else
      var before, last := AfterNews(cs, news[..|news| - 1]), news[|news| - 1];
      if last.NewText? then before[last.client := before[last.client].(text := last.text, ready := 1)] else before
  }

  lemma {:induction false} NewsEffect(cs: seq<Client>, news: seq<News>, j: nat)
    requires Seven(cs) && AreNews(news) && j < CLIENTS && cs[j].ready == 0
    ensures var r := AfterNews(cs, news);
            && r[j].ready == (if Named(news, j) then 1 else 0)
            && r[j].text == TextAfter(news, j, cs[j].text)
  {
    if news != [] {
      var n := |news| - 1;
      var front, last := news[..n], news[n];
      NewsEffect(cs, front, j);
      assert news == front + [last];
      NamedLast(front, last, j);
    }
  }

  lemma NamedLast(front: seq<News>, last: News, j: nat)
    ensures Named(front + [last], j) <==> Named(front, j) || (last.NewText? && last.client == j)
  {
    var news := front + [last];
    if Named(news, j) {
      var k :| 0 <= k < |news| && news[k].NewText? && news[k].client == j;
      assert k < |front| ==> front[k] == news[k];
    }
    if Named(front, j) {
      var k :| 0 <= k < |front| && front[k].NewText? && front[k].client == j;
      assert news[k] == front[k];
    }
    if last.NewText? && last.client == j {
      assert news[|front|] == last;
    }
  }

  /** Nobody has the line after an arrival. */
  lemma NewsArrived(cs: seq<Client>, news: seq<News>)
    requires Seven(cs) && AreNews(news) && forall j :: 0 <= j < CLIENTS ==> cs[j].ready == 0
    ensures var r := AfterNews(cs, news);
            && Orderly(r) && NoneActive(r)
            && forall j :: 0 <= j < CLIENTS ==>
                 && r[j].ready == (if Named(news, j) then 1 else 0)
                 && r[j].text == TextAfter(news, j, cs[j].text)
  {
    hide AfterNews, TextAfter, Named;
    forall j | 0 <= j < CLIENTS
      ensures var r := AfterNews(cs, news);
              && r[j].ready == (if Named(news, j) then 1 else 0)
              && r[j].text == TextAfter(news, j, cs[j].text)
    {
      NewsEffect(cs, news, j);
    }
  }

  ghost function Line1After(news: seq<News>, text: string): string {
    if news == [] then text
    else
      var last := news[|news| - 1];
      if last.NewLine1? then last.text else Line1After(news[..|news| - 1], text)
  }

  datatype Event = Tick | Arrival(news: seq<News>)

  /** New data: every client is set back, then those named are pending. */
  ghost function ArrivalOf(l: Line16, news: seq<News>): (r: Line16)
    requires Seven(l.cs) && AreNews(news)
    ensures Seven(r.cs)
  {
    l.(cs := AfterNews(Reset(l.cs), news))
  }

  ghost function Reset(cs: seq<Client>): (r: seq<Client>)
    requires Seven(cs)
    ensures Seven(r)
  {
    seq(CLIENTS, i requires 0 <= i < CLIENTS => cs[i].(ready := 0))
  }

  ghost predicate AreEvents(events: seq<Event>) {
    forall i :: 0 <= i < |events| ==> IsEvent(events[i])
  }

  /** The line after these events. */
  ghost function RunOf(l: Line16, events: seq<Event>): (r: Line16)
    requires Seven(l.cs) && AreEvents(events)
    ensures Seven(r.cs)
  {
    if events == [] then l
    else
      var before, e := RunOf(l, events[..|events| - 1]), events[|events| - 1];
      if e.Tick? then TickOf(before) else ArrivalOf(before, e.news)
  }

  ghost predicate IsEvent(e: Event) {
    e.Arrival? ==> AreNews(e.news)
  }

  // ----- the panel -----

  class Panel {
    var clients: seq<Client>
    var line1: string
    var total: string
    var timeReady: int
    var busy: int
    var interval: int
    var lastMessage: string

    /** `display_server_message`. */
    var serverMessage: string

    function Text(i: nat): string
      requires |clients| == CLIENTS && i < CLIENTS
      reads this`clients, this`total
    {
      if i == LINE2 then total else clients[i].text
    }

    /** Holds at all times, whatever arrives: one client at most has the line, and
        then it is busy; a free line ticks at the normal interval. */
    ghost predicate Valid()
      reads this`clients, this`busy, this`interval, this`total
      ensures Valid() ==> Orderly(clients) && InOrder(Line16(clients, busy))
    {
      && Orderly(clients)
      && (busy == 0 || busy == 1)
      && (busy == 0 ==> NoneActive(clients) && interval == NORMAL_INTERVAL)
      && (Active(clients, LINE2) ==> |total| == 2 * HALF)
    }

    /** Holds after every tick: busy means that some client has the line. */
    ghost predicate Settled()
      reads this`clients, this`busy, this`interval, this`total
      ensures Settled() ==> Valid()
    {
      Valid() && (busy == 1 <==> !NoneActive(clients))
    }

    ghost predicate Idle()
      reads this`clients, this`busy
    {
      busy == 0 && AllReady0(clients)
    }

    ghost function Rank(): int
      requires Seven(clients)
      reads this`clients, this`busy
    {
      RankOf(clients, busy)
    }

    /** The structure as the program starts it. */
    constructor ()
      ensures Settled() && Idle()
    {
      clients := seq(CLIENTS, _ => Client("", 0, 0, 0));
      line1, total, lastMessage, serverMessage := "", "", "", "";
      timeReady, busy, interval := 0, 0, NORMAL_INTERVAL;
    }

    /** The part of a tick that serves client `i`. */
    method Serve(i: nat)
      requires Valid() && i < CLIENTS
      modifies this`clients, this`total, this`busy, this`interval, this`lastMessage, this`serverMessage
      ensures Valid() && Now() == Serve1(old(Now()), i)
      ensures if Acts(old(clients), old(busy), i) then Rank() < old(Rank()) else unchanged(this)
    {
      if clients[i].ready == 1 && busy == 0 {
        Activate(i);
      } else if clients[i].ready == 2 {
        if clients[i].scroll > 0 {
          Scroll(i);
        } else {
          Wait(i);
        }
      }
    }

    /** A pending client takes the free line. */
    method Activate(i: nat)
      requires Valid() && i < CLIENTS && clients[i].ready == 1 && busy == 0
      modifies this`clients, this`total, this`busy, this`interval, this`serverMessage
      ensures Valid() && busy == 1
      ensures clients == Served(old(clients), 0, i)
      ensures serverMessage == Line(Text(i), 0)
      ensures interval == if i == MESSAGE then old(interval) else SCROLL_INTERVAL
      ensures Rank() == old(Rank()) - 1
    {
      busy := 1;
      if i != MESSAGE {
        interval := SCROLL_INTERVAL;
      }
      if i == LINE2 {
        total := Padded(line1) + Padded(clients[LINE2].text);
      }
      var scroll := |Text(i)|;
      if scroll <= WIDTH && scroll != 0 {
        scroll := 0;
      }
      serverMessage := Line(Text(i), 0);
      var c := clients[i].(ready := 2, scroll := scroll, event := HOLD);
      TakesLine(clients, i, c);
      clients := clients[i := c];
    }

    /** The active client shows its text from one character further on. */
    method Scroll(i: nat)
      requires Valid() && Active(clients, i) && clients[i].scroll > 0
      modifies this`clients, this`serverMessage, this`interval
      ensures Valid()
      ensures clients == Served(old(clients), busy, i)
      ensures serverMessage == Line(Text(i), |Text(i)| - old(clients[i].scroll))
      ensures interval == SCROLL_INTERVAL
      ensures Rank() == old(Rank()) - 1
    {
      hide Orderly, RankOf;
      ScrollInText(clients, i);
      var start := |Text(i)| - clients[i].scroll;
      serverMessage := Line(Text(i), start);
      var c := clients[i].(scroll := clients[i].scroll - 1);
      KeepsLine(clients, i, c);
      clients := clients[i := c];
      interval := SCROLL_INTERVAL;
    }

    /** The active client has scrolled: it holds the line for a while, then lets go. */
    method Wait(i: nat)
      requires Valid() && Active(clients, i) && clients[i].scroll == 0
      modifies this`clients, this`lastMessage, this`busy, this`interval
      ensures Valid() && Rank() < old(Rank())
      ensures clients == Served(old(clients), old(busy), i) && busy == BusyAfter(old(clients), old(busy), i)
      ensures lastMessage == Line(clients[i].text, 0)
      ensures interval == if old(clients[i].event) > 0 then old(interval) else NORMAL_INTERVAL
    {
      hide Orderly, RankOf;
      ScrollInText(clients, i);
      lastMessage := Line(clients[i].text, 0);
      if clients[i].event > 0 {
        var c := clients[i].(event := clients[i].event - 1);
        KeepsLine(clients, i, c);
        clients := clients[i := c];
      } else {
        FreesLine(clients, i);
        busy := 0;
        interval := NORMAL_INTERVAL;
        clients := clients[i := clients[i].(ready := 0, event := 0)];
        if i == MESSAGE && clients[TITLE].text != "" {
          clients := clients[TITLE := clients[TITLE].(ready := 1)];
          clients := clients[ARTIST := clients[ARTIST].(ready := 1)];
          clients := clients[ALBUM := clients[ALBUM].(ready := 1)];
        }
      }
    }

    ghost function Now(): Line16
      reads this`clients, this`busy
    {
      Line16(clients, busy)
    }

    /** `display_iee_16x1`.  Every tick brings the line nearer to idle. */
    method Tick()
      requires Valid()
      modifies this
      ensures Settled() && timeReady == 0
      ensures Now() == TickOf(old(Now()))
      ensures Idle() || Rank() < old(Rank())
    {
      hide TickOf, RankOf, Orderly;
      TickLowers(Now());
      ServeAll();
      timeReady := 0;
    }

    method ServeAll()
      requires Valid()
      modifies this`clients, this`total, this`busy, this`interval, this`lastMessage, this`serverMessage
      ensures Settled() && Now() == TickOf(old(Now()))
    {
      hide Valid, Settled, Serve1, Freed, Acts, RankOf;
      ServeSong();
      Serve(PROGRESS);
      Serve(FILE);
      Serve(LINE2);
      FreeOrphan();
    }

    method ServeSong()
      requires Valid()
      modifies this`clients, this`total, this`busy, this`interval, this`lastMessage, this`serverMessage
      ensures Valid() && Now() == AfterSong(old(Now()))
    {
      hide Valid, Serve1, Acts, RankOf;
      Serve(MESSAGE);
      Serve(ARTIST);
      Serve(ALBUM);
      Serve(TITLE);
    }

    /** The end of a tick: a busy line that nobody has is freed, and a free one shows the
        start of the last text again. */
    method FreeOrphan()
      requires Valid()
      modifies this`busy, this`interval, this`serverMessage, this`lastMessage
      ensures Settled() && Now() == Freed(old(Now()))
      ensures serverMessage == if old(busy) == 0 && old(lastMessage) != "" then old(lastMessage) else old(serverMessage)
      ensures lastMessage == if old(busy) == 0 then "" else old(lastMessage)
    {
      var active := exists i :: 0 <= i < CLIENTS && clients[i].ready == 2;
      assert NoneActive(clients) <==> !active;
      if !active && busy == 1 {
        busy := 0;
        interval := NORMAL_INTERVAL;
      } else if busy == 0 && |lastMessage| > 0 {
        serverMessage := lastMessage;
        lastMessage := "";
        interval := NORMAL_INTERVAL;
      }
    }

    /** A client connected: every flag is reset, then its lines set theirs. */
    method Arrive(news: seq<News>)
      requires Valid() && AreNews(news)
      modifies this`clients, this`line1, this`timeReady
      ensures Valid()
      ensures forall j :: 0 <= j < CLIENTS ==>
                clients[j].ready == if Named(news, j) then 1 else 0
      ensures forall j :: 0 <= j < CLIENTS ==> clients[j].text == TextAfter(news, j, old(clients[j].text))
      ensures line1 == Line1After(news, old(line1))
      ensures timeReady == if NewTime in news then 1 else 0
      ensures Now() == ArrivalOf(old(Now()), news)
    {
      hide Orderly, NoneActive;
      var kept := clients;
      clients := seq(CLIENTS, i requires 0 <= i < CLIENTS => kept[i].(ready := 0));
      timeReady := 0;
      ghost var reset := Reset(kept);
      assert clients == reset;
      var k := 0;
      while k < |news|
        invariant 0 <= k <= |news| && |clients| == CLIENTS
        invariant clients == AfterNews(reset, news[..k])
        invariant line1 == Line1After(news[..k], old(line1))
        invariant timeReady == if NewTime in news[..k] then 1 else 0
      {
        assert news[..k + 1][..k] == news[..k];
        match news[k] {
          case NewText(c, text) => clients := clients[c := clients[c].(text := text, ready := 1)];
          case NewTime => timeReady := 1;
          case NewLine1(text) => line1 := text;
        }
        k := k + 1;
      }
      assert news[..k] == news;
      NewsArrived(reset, news);
    }

    /** Without arrivals the line is idle after `Bound` ticks, whatever was going on, and by
        then every client that was pending had its whole turn. */
    method RunQuiet(n: nat)
      requires Valid() && n >= Bound(clients)
      modifies this
      ensures Idle() && Settled()
      ensures Now() == Ticks(old(Now()), n)
      ensures forall i :: 0 <= i < CLIENTS && old(clients)[i].ready == 1 ==> ServedWithin(old(Now()), i, n)
      ensures old(clients)[MESSAGE].ready != 0 && old(clients)[TITLE].text != "" ==>
                forall i :: 0 <= i < CLIENTS && IsSong(i) ==> ServedAfterMessage(old(Now()), i, n)
    {
      hide RankOf, Bound, TickOf, ServedWithin, ServedAfterMessage, Orderly, AllReady0;
      ghost var l := Now();
      EveryoneServed(l, n);
      SongServed(l, n);
      RankBounds(clients, busy);
      RankZero(clients, busy);
      var i := 0;
      while i < n
        invariant 0 <= i <= n && Valid()
        invariant Idle() || Rank() <= n - i
        invariant i > 0 ==> Settled()
        invariant Now() == Ticks(l, i)
      {
        RankZero(clients, busy);
        Tick();
        RankBounds(clients, busy);
        i := i + 1;
      }
      RankBounds(clients, busy);
      RankZero(clients, busy);
    }

    /** Any interleaving of ticks and arrivals keeps the line in order. */
    method Run(events: seq<Event>)
      requires Settled() && AreEvents(events)
      modifies this
      ensures Now() == RunOf(old(Now()), events)
      ensures Valid() && (events != [] && events[|events| - 1].Tick? ==> Settled())
    {
      hide Valid, Settled, TickOf, ArrivalOf;
      var i := 0;
      while i < |events|
        invariant 0 <= i <= |events| && Valid()
        invariant Now() == RunOf(old(Now()), events[..i])
        invariant i > 0 && events[i - 1].Tick? ==> Settled()
      {
        assert events[..i + 1][..i] == events[..i];
        match events[i] {
          case Tick => Tick();
          case Arrival(news) => Arrive(news);
        }
        i := i + 1;
      }
      assert events[..i] == events;
    }
  }
}
