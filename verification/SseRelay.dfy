/** The viewer's relay: a bounded queue of lines, and a writer that fans frames out to clients
    whose sockets accept as little of a send as they like. */
module SseRelay {
  import opened Wrappers
  import opened EventStream

  /** a is b with some elements left out. */
  ghost predicate Subsequence<T>(a: seq<T>, b: seq<T>)
    decreases |b|
  {
    || a == []
    || (b != [] && Subsequence(a, b[..|b| - 1]))
    || (b != [] && a[|a| - 1] == b[|b| - 1] && Subsequence(a[..|a| - 1], b[..|b| - 1]))
  }

  lemma SubsequenceGrows<T>(a: seq<T>, b: seq<T>, x: T)
    requires Subsequence(a, b)
    ensures Subsequence(a, b + [x]) && Subsequence(a + [x], b + [x])
  {
    assert (b + [x])[..|b|] == b && (a + [x])[..|a|] == a;
  }

  lemma {:induction false} SubsequenceDrops<T>(a: seq<T>, i: nat, b: seq<T>)
    requires i < |a| && Subsequence(a, b)
    ensures Subsequence(a[..i] + a[i + 1..], b)
    decreases |b|
  {
    var n := |a| - 1;
    if Subsequence(a, b[..|b| - 1]) {
      SubsequenceDrops(a, i, b[..|b| - 1]);
    } else if i == n {
      assert a[..i] + a[i + 1..] == a[..n];
      SubsequenceWeakens(a[..n], b[..|b| - 1], b);
    } else {
      SubsequenceDrops(a[..n], i, b[..|b| - 1]);
      var kept := a[..i] + a[i + 1..];
      assert kept[..|kept| - 1] == a[..n][..i] + a[..n][i + 1..];
    }
  }

  lemma SubsequenceWeakens<T>(a: seq<T>, b: seq<T>, c: seq<T>)
    requires Subsequence(a, b) && c != [] && b == c[..|c| - 1]
    ensures Subsequence(a, c)
  {}

  /** The queue between the source reader and the writer: first in first out, and a full queue
      drops its oldest line. */
  class SharedQueue {
    const maxDepth: nat
    var queue: seq<string>
    var dropped: nat
    ghost var pushed: seq<string>
    ghost var popped: seq<string>

    /** Nothing is invented, reordered or lost without being counted. */
    ghost predicate Valid()
      reads this
    {
      && maxDepth > 0 && |queue| <= maxDepth
      && Subsequence(popped + queue, pushed)
      && |pushed| == |popped| + |queue| + dropped
    }

    constructor (depth: nat)
      requires depth > 0
      ensures Valid() && queue == [] && pushed == [] && popped == [] && dropped == 0 && maxDepth == depth
    {
      maxDepth, queue, dropped := depth, [], 0;
      pushed, popped := [], [];
    }

    method Push(line: string)
      requires Valid()
      modifies this
      ensures Valid() && pushed == old(pushed) + [line] && popped == old(popped)
      ensures queue == (if |old(queue)| < maxDepth then old(queue) else old(queue)[1..]) + [line]
      ensures dropped == old(dropped) + (if |old(queue)| < maxDepth then 0 else 1)
    {
      hide Subsequence;
      ghost var kept := popped + queue;
      if |queue| >= maxDepth {
        SubsequenceDrops(kept, |popped|, pushed);
        assert kept[..|popped|] + kept[|popped| + 1..] == popped + queue[1..];
        queue := queue[1..];
        dropped := dropped + 1;
      }
      SubsequenceGrows(popped + queue, pushed, line);
      assert popped + queue + [line] == popped + (queue + [line]);
      queue := queue + [line];
      pushed := pushed + [line];
    }

    method Pop() returns (line: Option<string>)
      requires Valid()
      modifies this
      ensures Valid() && pushed == old(pushed) && dropped == old(dropped)
      ensures line.None? <==> old(queue) == []
      ensures line.None? ==> queue == old(queue) && popped == old(popped)
      ensures line.Some? ==> old(queue) == [line.value] + queue && popped == old(popped) + [line.value]
    {
      if queue == [] {
        return None;
      }
      hide Subsequence;
      line := Some(queue[0]);
      assert popped + queue == popped + [queue[0]] + queue[1..];
      popped := popped + [queue[0]];
      queue := queue[1..];
    }
  }

  // ---------------------------------------------------------------- writer

  /** A client is dropped when more than this is waiting. */
  const MAX_PENDING := 262144

  /** What has happened on one connection: the bytes the kernel took, the bytes still pending,
      the lines put on the wire, and the lines offered since the client joined. */
  datatype Connection = Connection(sent: string, tail: string, taken: seq<string>, offered: seq<string>)

  /** Sent bytes followed by the pending tail are whole frames of a subsequence of the offered
      lines, in order, and the tail is within the cap. */
  ghost predicate Intact(c: Connection) {
    && c.sent + c.tail == Stream(c.taken)
    && Subsequence(c.taken, c.offered)
    && |c.tail| <= MAX_PENDING
  }

  function TailOf(pending: map<int, string>, fd: int): string {
    if fd in pending then pending[fd] else ""
  }

  class Relay {
    var clients: seq<int>
    var pending: map<int, string>
    ghost var history: map<int, Connection>

    /** The books on one connection agree with the buffers. */
    ghost predicate Open(fd: int)
      reads this
    {
      fd in history && history[fd].tail == TailOf(pending, fd) && Intact(history[fd])
    }

    ghost predicate Valid()
      reads this
    {
      && (forall i, j :: 0 <= i < j < |clients| ==> clients[i] != clients[j])
      && (forall fd :: fd in pending ==> fd in clients)
      && (forall fd :: fd in clients ==> Open(fd))
    }

    constructor ()
      ensures Valid() && clients == []
    {
      clients, pending, history := [], map[], map[];
    }

    /** A connection joins with nothing sent and nothing pending. */
    method Join(fd: int)
      requires Valid() && fd !in clients
      modifies this
      ensures Valid() && clients == old(clients) + [fd]
      ensures history == old(history)[fd := Connection("", "", [], [])]
    {
      hide Subsequence;
      EmptyIsIntact();
      clients := clients + [fd];
      history := history[fd := Connection("", "", [], [])];
    }

    /** Offers the line to every client; returns those with a hard error or an oversized tail. */
    method OfferAll(line: string, answers: int -> Answers) returns (dead: set<int>)
      requires Valid()
      modifies `pending, `history
      ensures forall fd :: fd in pending ==> fd in clients
      ensures forall fd :: fd in clients ==>
                fd in old(history) && (fd in dead <==> Refused(old(history)[fd].tail, line, answers(fd)))
      ensures forall fd :: fd in clients && fd !in dead ==> Open(fd) && Served(old(history)[fd], history[fd], line, answers(fd))
    {
      hide Intact, TailOf, Served, Refused;
      dead := {};
      ghost var before := history;
      assert forall j :: 0 <= j < |clients| ==> clients[j] in clients && Open(clients[j]);
      for i := 0 to |clients|
        invariant forall fd :: fd in pending ==> fd in clients
        invariant forall j :: i <= j < |clients| ==> clients[j] !in dead && Waiting(before, clients[j])
        invariant forall j :: 0 <= j < i ==> Settled(before, dead, clients[j], line, answers)
      {
        var alive := Offer(clients[i], line, answers(clients[i]));
        if !alive {
          dead := dead + {clients[i]};
        }
      }
      assert forall fd :: fd in clients ==> exists j :: 0 <= j < |clients| && clients[j] == fd;
    }

    /** Serves one client and leaves the others' books alone. */
    method Offer(fd: int, line: string, k: Answers) returns (alive: bool)
      requires Open(fd)
      modifies `pending, `history
      ensures alive <==> !Refused(old(history)[fd].tail, line, k)
      ensures fd in history && (alive ==> Open(fd) && Served(old(history)[fd], history[fd], line, k))
      ensures pending.Keys == old(pending).Keys + {fd}
      ensures forall g :: g != fd ==> TailOf(pending, g) == TailOf(old(pending), g)
      ensures forall g :: g != fd && old(Open(g)) ==> Open(g)
      ensures forall g :: g != fd ==> (g in history <==> g in old(history)) && (g in old(history) ==> history[g] == old(history)[g])
    {
      hide Intact, Served, Refused;
      ghost var c;
      var tail;
      tail, alive, c := Serve(history[fd], TailOf(pending, fd), line, k);
      pending := pending[fd := tail];
      history := history[fd := c];
    }

    /** Not offered the line yet. */
    ghost predicate Waiting(before: map<int, Connection>, fd: int)
      reads this
    {
      Open(fd) && fd in before && history[fd] == before[fd]
    }

    /** The line has been offered to this client. */
    ghost predicate Settled(before: map<int, Connection>, dead: set<int>, fd: int, line: string, answers: int -> Answers)
      reads this
    {
      && fd in before
      && (fd in dead <==> Refused(before[fd].tail, line, answers(fd)))
      && (fd !in dead ==> Open(fd) && Served(before[fd], history[fd], line, answers(fd)))
    }

    /** One turn of the writer loop: every client is offered the line; exactly the clients with a
        hard error or an oversized tail are closed and forgotten. */
    method WriteLine(line: string, answers: int -> Answers)
      requires Valid()
      modifies this
      ensures Valid()
      ensures Subsequence(clients, old(clients))
      ensures forall fd :: fd in clients <==> fd in old(clients) && !Refused(TailOf(old(pending), fd), line, answers(fd))
      ensures forall fd :: fd in clients ==>
                fd in old(history) && fd in history && Served(old(history)[fd], history[fd], line, answers(fd))
    {
      hide Subsequence, Intact, Served, Refused;
      assert forall fd :: fd in clients ==> Open(fd);
      var dead := OfferAll(line, answers);
      WithoutMembers(clients, dead);
      TailsKept(pending, dead);
      pending := pending - dead;
      clients := Without(clients, dead);
    }
  }

  /** Queue and relay together: the source reader pushes, clients join, the writer loop turns. */
  class Viewer {
    const lines: SharedQueue
    const relay: Relay
    /** How many lines had been popped when each client joined. */
    ghost var joinedAt: map<int, nat>

    /** Each client has been offered exactly the lines popped since it joined. */
    ghost predicate Offered(fd: int)
      reads this, lines, relay
    {
      && fd in joinedAt && joinedAt[fd] <= |lines.popped|
      && fd in relay.history && relay.history[fd].offered == lines.popped[joinedAt[fd]..]
    }

    ghost predicate Valid()
      reads this, lines, relay
    {
      lines.Valid() && relay.Valid() && forall fd :: fd in relay.clients ==> Offered(fd)
    }

    constructor (depth: nat)
      requires depth > 0
      ensures Valid() && fresh(lines) && fresh(relay) && relay.clients == [] && lines.pushed == []
    {
      lines := new SharedQueue(depth);
      relay := new Relay();
      joinedAt := map[];
    }

    method Receive(line: string)
      requires Valid()
      modifies lines
      ensures Valid() && lines.pushed == old(lines.pushed) + [line] && lines.popped == old(lines.popped)
    {
      hide Subsequence, Intact, SharedQueue.Valid, Relay.Valid;
      lines.Push(line);
    }

    method Accept(fd: int)
      requires Valid() && fd !in relay.clients
      modifies this, relay
      ensures Valid() && relay.clients == old(relay.clients) + [fd] && joinedAt == old(joinedAt)[fd := |lines.popped|]
    {
      hide Subsequence, Intact, SharedQueue.Valid, Relay.Valid;
      relay.Join(fd);
      joinedAt := joinedAt[fd := |lines.popped|];
    }

    /** One turn of the writer loop. */
    method WriterTurn(answers: int -> Answers)
      requires Valid()
      modifies lines, relay
      ensures Valid() && lines.pushed == old(lines.pushed)
      ensures old(lines.queue) == [] ==> lines.popped == old(lines.popped) && relay.clients == old(relay.clients)
      ensures old(lines.queue) != [] ==> lines.popped == old(lines.popped) + [old(lines.queue)[0]]
    {
      hide Subsequence, Intact, Served, Refused, SharedQueue.Valid, Relay.Valid;
      var line := lines.Pop();
      if line.Some? {
        ghost var before := relay.history;
        relay.WriteLine(line.value, answers);
        forall fd | fd in relay.clients ensures Offered(fd) {
          ServedOffers(before[fd], relay.history[fd], line.value, answers(fd));
        }
      }
    }

    /** Over every run: what a live client has been sent, with its tail, is whole frames of a
        subsequence of the lines popped since it joined, in order; and what it decodes is a prefix
        of their events. */
    lemma ClientSeesPoppedLines(fd: int)
      requires Valid() && fd in relay.clients
      ensures var c := relay.history[fd];
              && c.sent + c.tail == Stream(c.taken) && |c.tail| <= 256 * 1024 && c.tail == TailOf(relay.pending, fd)
              && Subsequence(c.taken, lines.popped[joinedAt[fd]..])
              && ((forall i :: 0 <= i < |c.taken| ==> OneLine(Trimmed(c.taken[i]))) ==> Decode(c.sent) <= EventsOf(c.taken))
    {
      hide Subsequence, Decode, EventsOf, Trimmed, Stream;
      assert Offered(fd) && relay.Open(fd);
      var c := relay.history[fd];
      if forall i :: 0 <= i < |c.taken| ==> OneLine(Trimmed(c.taken[i])) {
        ClientDecodesItsLines(c);
      }
    }
  }

  lemma TailsKept(pending: map<int, string>, dead: set<int>)
    ensures forall fd :: fd !in dead ==> TailOf(pending - dead, fd) == TailOf(pending, fd)
  {}

  lemma ServedOffers(c: Connection, c': Connection, line: string, k: Answers)
    requires Served(c, c', line, k)
    ensures c'.offered == c.offered + [line]
  {}

  function Without(fds: seq<int>, dead: set<int>): seq<int> {
    if fds == [] then []
    else Without(fds[..|fds| - 1], dead) + (if fds[|fds| - 1] in dead then [] else [fds[|fds| - 1]])
  }

  lemma {:induction false} WithoutMembers(fds: seq<int>, dead: set<int>)
    requires forall i, j :: 0 <= i < j < |fds| ==> fds[i] != fds[j]
    ensures Subsequence(Without(fds, dead), fds)
    ensures forall fd :: fd in Without(fds, dead) <==> fd in fds && fd !in dead
    ensures forall i, j :: 0 <= i < j < |Without(fds, dead)| ==> Without(fds, dead)[i] != Without(fds, dead)[j]
  {
    if fds != [] {
      var n := |fds| - 1;
      WithoutMembers(fds[..n], dead);
      SubsequenceGrows(Without(fds[..n], dead), fds[..n], fds[n]);
      assert fds[..n] + [fds[n]] == fds;
      assert Without(fds[..n], dead) + [] == Without(fds[..n], dead);
    }
  }

  /** Whatever the sockets accepted over any run, what a client has decoded so far is a prefix
      of the events of the lines put on its wire -- all of them once nothing is pending -- and
      those lines are a subsequence of the lines offered. */
  lemma ClientDecodesItsLines(c: Connection)
    requires Intact(c)
    requires forall i :: 0 <= i < |c.taken| ==> OneLine(Trimmed(c.taken[i]))
    ensures Decode(c.sent) <= EventsOf(c.taken)
    ensures c.tail == "" ==> Decode(c.sent) == EventsOf(c.taken)
    ensures Subsequence(c.taken, c.offered)
  {
    hide Decode, EventsOf, Stream, Trimmed;
    PrefixDecodes(c.taken, c.sent, c.tail);
  }

  lemma EmptyIsIntact()
    ensures Intact(Connection("", "", [], []))
  {}

  /** What the kernel answers to the two sends a turn may make on one socket; any values. */
  datatype Answers = Answers(forTail: int, forFrame: int)

  /** A non-blocking send: -1 for a hard error, or any number of the bytes offered. */
  function TrySend(answer: int, size: nat): (n: int)
    ensures -1 <= n <= size
  {
    if answer < 0 then -1 else if answer > size then size else answer
  }

  /** A failed send is an error; any number of bytes up to those offered may be accepted. */
  lemma AnySendIsPossible(n: int, size: nat)
    requires -1 <= n <= size
    ensures TrySend(n, size) == n
  {}

  /** The sends of this turn lose the connection: a hard error, or too much left over. */
  predicate Refused(tail: string, line: string, k: Answers) {
    var n, m := TrySend(k.forTail, |tail|), TrySend(k.forFrame, |Frame(line)|);
    if tail != "" && n < |tail| then n < 0 || |tail| - n > MAX_PENDING
    else m < 0 || |Frame(line)| - m > MAX_PENDING
  }

  /** A line was offered and the connection kept: exactly the accepted bytes were added to those
      sent, and the line was put on the wire unless the earlier tail could not be drained. */
  ghost predicate Served(c: Connection, c': Connection, line: string, k: Answers) {
    var n, m := TrySend(k.forTail, |c.tail|), TrySend(k.forFrame, |Frame(line)|);
    && c'.offered == c.offered + [line]
    && c.sent <= c'.sent
    && if c.tail != "" && n < |c.tail| then c'.taken == c.taken && |c'.sent| == |c.sent| + n
       else c'.taken == c.taken + [line] && |c'.sent| == |c.sent| + |c.tail| + m
  }

  /** One line for one connection. */
  method Serve(ghost c: Connection, tail: string, line: string, k: Answers)
    returns (tail': string, alive: bool, ghost c': Connection)
    requires Intact(c) && c.tail == tail
    ensures alive <==> !Refused(tail, line, k)
    ensures alive ==> Intact(c') && c'.tail == tail' && Served(c, c', line, k)
  {
    hide Subsequence, Frame, TrySend;
    var frame := Frame(line);
    tail', alive := tail, true;
    SubsequenceGrows(c.taken, c.offered, line);
    StreamStep(c.taken, line);
    c' := c.(offered := c.offered + [line]);
    if tail' != "" {
      var n := TrySend(k.forTail, |tail'|);
      if n < 0 {
        return tail', false, c';
      }
      c' := c'.(sent := c'.sent + tail'[..n], tail := tail'[n..]);
      assert c'.sent + c'.tail == c.sent + tail';
      if n < |tail'| {
        tail' := tail'[n..];
        if |tail'| > MAX_PENDING {
          alive := false;
        }
        return;
      }
      tail' := "";
    }
    assert c'.sent == Stream(c.taken) && c'.tail == "";
    var n := TrySend(k.forFrame, |frame|);
    if n < 0 {
      alive := false;
      return;
    }
    c' := c'.(sent := c'.sent + frame[..n], tail := frame[n..], taken := c.taken + [line]);
    assert c'.sent + c'.tail == Stream(c.taken) + frame;
    tail' := frame[n..];
    if |tail'| > MAX_PENDING {
      alive := false;
    }
  }

  lemma StreamStep(lines: seq<string>, line: string)
    ensures Stream(lines + [line]) == Stream(lines) + Frame(line)
  {
    assert (lines + [line])[..|lines|] == lines;
  }
}
