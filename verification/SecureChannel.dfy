/**
  The encrypted control channel of src/crypto.rs over an ideal AEAD, and the receive
  loop of src/server.rs on a wire that may drop, repeat, reorder or alter lines.
*/
module SecureChannels {
  import opened Common

  /** `u64` counters; in a release build the increment wraps around. */
  const U64: nat := 0x1_0000_0000_0000_0000

  datatype Message = PairRequest | AuthRequest | Command(op: nat) | Ping(id: nat)

  /** A decrypted payload, and the message it parses to, if any. */
  datatype Plain = Plain(bits: seq<Byte>, message: Option<Message>)

  /** The ideal AEAD: a ciphertext is what was sealed, or something that no key opens. */
  datatype Ciphertext = Sealed(key: nat, nonce: seq<Byte>, aad: seq<Byte>, plain: Plain) | Garbage(bits: seq<Byte>)

  /** One line off the wire; `Unreadable` is a closed connection, an oversized line or bad JSON. */
  datatype Line = Frame(seqNo: nat, ciphertext: Ciphertext) | Unreadable

  function Opened(key: nat, nonce: seq<Byte>, aad: seq<Byte>, c: Ciphertext): Option<Plain> {
    if c.Sealed? && c.key == key && c.nonce == nonce && c.aad == aad then Some(c.plain) else None
  }

  function BigEndian(n: nat, width: nat): (b: seq<Byte>)
    ensures |b| == width
  {
    if width == 0 then [] else BigEndian(n / 256, width - 1) + [n % 256]
  }

  function Power256(width: nat): (p: nat)
    ensures p > 0
  {
    if width == 0 then 1 else 256 * Power256(width - 1)
  }

  lemma {:induction false} BigEndianInjective(n: nat, m: nat, width: nat)
    requires n < Power256(width) && m < Power256(width) && BigEndian(n, width) == BigEndian(m, width)
    ensures n == m
  {
    if width > 0 {
      var a, b := BigEndian(n, width), BigEndian(m, width);
      assert BigEndian(n / 256, width - 1) == a[..width - 1] == b[..width - 1] == BigEndian(m / 256, width - 1);
      assert n % 256 == a[width - 1] == b[width - 1] == m % 256;
      BigEndianInjective(n / 256, m / 256, width - 1);
    }
  }

  /** The number that bytes stand for, the most significant one first. */
  function FromDigits(b: seq<Byte>): nat {
    if b == [] then 0 else FromDigits(b[..|b| - 1]) * 256 + b[|b| - 1]
  }

  /** Network order: a number that fits is given back by its bytes, read as base-256 digits. */
  lemma {:induction false} DigitsOfBigEndian(n: nat, width: nat)
    requires n < Power256(width)
    ensures FromDigits(BigEndian(n, width)) == n
  {
    if width > 0 {
      DigitsOfBigEndian(n / 256, width - 1);
      assert BigEndian(n, width)[..width - 1] == BigEndian(n / 256, width - 1);
    }
  }

  /** Four prefix bytes, then the counter. */
  function Nonce(prefix: seq<Byte>, seqNo: nat): seq<Byte> {
    prefix + BigEndian(seqNo, 8)
  }

  const C2S: seq<Byte> := [67, 50, 83, 0]

  lemma NonceInjective(prefix: seq<Byte>, n: nat, m: nat)
    requires n < U64 && m < U64
    ensures Nonce(prefix, n) == Nonce(prefix, m) <==> n == m
  {
    if Nonce(prefix, n) == Nonce(prefix, m) {
      assert BigEndian(n, 8) == Nonce(prefix, n)[|prefix|..] == BigEndian(m, 8);
      Power8();
      BigEndianInjective(n, m, 8);
    }
  }

  lemma Power8()
    ensures Power256(8) == U64
  {
    assert Power256(4) == 0x1_0000_0000;
    assert Power256(8) == 256 * (256 * (256 * (256 * Power256(4))));
  }

  // ---------------------------------------------------------------------
  // Sending
  // ---------------------------------------------------------------------

  /** What `send` writes for the `i`-th message. */
  function Genuine(key: nat, prefix: seq<Byte>, i: nat, plain: Plain): Line {
    Frame(i % U64, Sealed(key, Nonce(prefix, i % U64), BigEndian(i % U64, 8), plain))
  }

  /** Two messages share a nonce exactly when their counters agree modulo 2^64. */
  lemma NonceReuse(key: nat, prefix: seq<Byte>, i: nat, j: nat, p: Plain, q: Plain)
    ensures Genuine(key, prefix, i, p).ciphertext.nonce == Genuine(key, prefix, j, q).ciphertext.nonce <==> i % U64 == j % U64
  {
    NonceInjective(prefix, i % U64, j % U64);
  }

  function Wire(key: nat, prefix: seq<Byte>, sent: seq<Plain>): (lines: seq<Line>)
    ensures |lines| == |sent|
    ensures forall i :: 0 <= i < |sent| ==> lines[i] == Genuine(key, prefix, i, sent[i])
  {
    seq(|sent|, i requires 0 <= i < |sent| => Genuine(key, prefix, i, sent[i]))
  }

  /** The wire may do anything but forge: what opens under the key was sealed by the sender. */
  ghost predicate Unforgeable(key: nat, prefix: seq<Byte>, sent: seq<Plain>, line: Line) {
    line.Frame? && line.ciphertext.Sealed? && line.ciphertext.key == key ==>
      exists j :: 0 <= j < |sent| && line.ciphertext == Genuine(key, prefix, j, sent[j]).ciphertext
  }

  // ---------------------------------------------------------------------
  // Receiving
  // ---------------------------------------------------------------------

  /** `recv`: the counter moves on as soon as the sequence number fits, before decryption. */
  function Received(key: nat, prefix: seq<Byte>, next: nat, line: Line): (nat, Option<Message>) {
    if line.Unreadable? || line.seqNo != next then (next, None)
    else
      match Opened(key, Nonce(prefix, next), BigEndian(next, 8), line.ciphertext)
      case None => ((next + 1) % U64, None)
      case Some(plain) => ((next + 1) % U64, plain.message)
  }

  /**
    A line is acted on exactly if it carries the next sequence number and what the phone sealed under this
    key, with the nonce `C2S`, a zero byte and the number in network order, the number as additional data, and a
    message that parses.
  */
  lemma AcceptedExactly(key: nat, next: nat, line: Line)
    requires next < U64
    ensures var message := Received(key, C2S, next, line).1;
            message.Some? <==>
              && line.Frame? && line.seqNo == next && line.ciphertext.Sealed? && line.ciphertext.key == key
              && |line.ciphertext.nonce| == 12 && line.ciphertext.nonce[..4] == ['C' as int, '2' as int, 'S' as int, 0]
              && FromDigits(line.ciphertext.nonce[4..]) == next
              && |line.ciphertext.aad| == 8 && FromDigits(line.ciphertext.aad) == next
              && line.ciphertext.plain.message.Some?
    ensures Received(key, C2S, next, line).1.Some? ==> Received(key, C2S, next, line).1 == line.ciphertext.plain.message
  {
    hide BigEndian, FromDigits;
    Power8();
    DigitsOfBigEndian(next, 8);
    var digits := BigEndian(next, 8);
    assert Nonce(C2S, next)[..4] == C2S && Nonce(C2S, next)[4..] == digits;
    if line.Frame? && line.ciphertext.Sealed? && |line.ciphertext.nonce| == 12 && |line.ciphertext.aad| == 8 {
      assert line.ciphertext.nonce == line.ciphertext.nonce[..4] + line.ciphertext.nonce[4..];
      SameDigits(line.ciphertext.nonce[4..], digits);
      SameDigits(line.ciphertext.aad, digits);
    }
  }

  lemma {:induction false} SameDigits(a: seq<Byte>, b: seq<Byte>)
    requires |a| == |b|
    ensures FromDigits(a) == FromDigits(b) ==> a == b
  {
    if a != [] && FromDigits(a) == FromDigits(b) {
      var n := |a| - 1;
      assert (FromDigits(a[..n]) - FromDigits(b[..n])) * 256 == b[n] - a[n];
      SameDigits(a[..n], b[..n]);
      assert a == a[..n] + [a[n]] && b == b[..n] + [b[n]];
    }
  }

  /** One round: the line, whether a pair or auth request is granted, the reply and whether it gets through. */
  datatype Round = Round(line: Line, granted: bool, reply: Plain, replied: bool)

  /** The loop's state: the counter, whether it still runs, who it knows, what it acted on and what it executed. */
  datatype Loop = Loop(next: nat, running: bool, authenticated: bool, acted: seq<Message>, executed: seq<nat>)

  const START: Loop := Loop(0, true, false, [], [])

  function Act(s: Loop, message: Message, r: Round): Loop {
    var s := s.(acted := s.acted + [message], running := r.replied);
    match message
    case Command(op) => if s.authenticated then s.(executed := s.executed + [op]) else s
    case Ping(_) => s
    case _ => s.(authenticated := s.authenticated || r.granted)
  }

  function Turn(key: nat, s: Loop, r: Round): Loop {
    if !s.running then s
    else
      var (next, message) := Received(key, C2S, s.next, r.line);
      if message.None? then s.(next := next, running := false) else Act(s.(next := next), message.value, r)
  }

  function Served(key: nat, rounds: seq<Round>): Loop {
    if rounds == [] then START else Turn(key, Served(key, rounds[..|rounds| - 1]), rounds[|rounds| - 1])
  }

  /** The messages acted on are the first ones sent, each once and in order. */
  predicate InOrder(acted: seq<Message>, sent: seq<Plain>) {
    |acted| <= |sent| && forall i :: 0 <= i < |acted| ==> sent[i].message == Some(acted[i])
  }

  lemma GenuineNext(key: nat, prefix: seq<Byte>, sent: seq<Plain>, next: nat, line: Line)
    requires |sent| <= U64 && next < U64 && Unforgeable(key, prefix, sent, line)
    requires Received(key, prefix, next, line).1.Some?
    ensures next < |sent| && line == Genuine(key, prefix, next, sent[next])
    ensures Received(key, prefix, next, line).1 == sent[next].message
  {
    hide BigEndian, Nonce;
    var j :| 0 <= j < |sent| && line.ciphertext == Genuine(key, prefix, j, sent[j]).ciphertext;
    Small(j);
    Small(next);
    NonceInjective(prefix, next, j);
  }

  /**
    Whatever the wire does short of forging, the loop acts on a prefix of what was sent,
    as long as the counters stay below 2^64.
  */
  lemma {:induction false} OrderedDelivery(key: nat, sent: seq<Plain>, rounds: seq<Round>)
    requires |sent| <= U64 && |rounds| <= U64
    requires forall i :: 0 <= i < |rounds| ==> Unforgeable(key, C2S, sent, rounds[i].line)
    ensures var s := Served(key, rounds);
            && InOrder(s.acted, sent) && |s.acted| <= |rounds|
            && (s.running ==> |s.acted| == |rounds| && s.next == |rounds| % U64)
  {
    hide Received, Unforgeable, C2S;
    if rounds != [] {
      var r, before := rounds[|rounds| - 1], rounds[..|rounds| - 1];
      OrderedDelivery(key, sent, before);
      CounterSteps(|before|);
      var s := Served(key, before);
      if s.running {
        Small(|before|);
        Counts(key, C2S, s.next, r.line);
        if Received(key, C2S, s.next, r.line).1.Some? {
          GenuineNext(key, C2S, sent, s.next, r.line);
        }
      }
    }
  }

  lemma Small(n: nat)
    requires n < U64
    ensures n % U64 == n
  {
  }

  lemma Counts(key: nat, prefix: seq<Byte>, next: nat, line: Line)
    ensures Received(key, prefix, next, line).1.Some? ==> Received(key, prefix, next, line).0 == (next + 1) % U64
  {
    hide BigEndian, Nonce;
  }

  /** How many lines at the start of the wire are the genuine frames in order, each of a message that parses. */
  function Faithful(key: nat, sent: seq<Plain>, lines: seq<Line>): (n: nat)
    ensures n <= |lines| && n <= |sent|
    ensures forall i :: 0 <= i < n ==> lines[i] == Genuine(key, C2S, i, sent[i]) && sent[i].message.Some?
    ensures n < |lines| && n < |sent| ==> !(lines[n] == Genuine(key, C2S, n, sent[n]) && sent[n].message.Some?)
  {
    if lines == [] then 0
    else
      var n := Faithful(key, sent, lines[..|lines| - 1]);
      if n == |lines| - 1 && n < |sent| && lines[n] == Genuine(key, C2S, n, sent[n]) && sent[n].message.Some? then n + 1 else n
  }

  function Lines(rounds: seq<Round>): (ls: seq<Line>)
    ensures |ls| == |rounds| && forall i :: 0 <= i < |rounds| ==> ls[i] == rounds[i].line
  {
    seq(|rounds|, i requires 0 <= i < |rounds| => rounds[i].line)
  }

  /** While replies get through, exactly the faithful beginning of the wire is acted on, and no more. */
  lemma {:induction false} ExactDelivery(key: nat, sent: seq<Plain>, rounds: seq<Round>)
    requires |sent| <= U64 && |rounds| <= U64
    requires forall i :: 0 <= i < |rounds| ==> Unforgeable(key, C2S, sent, rounds[i].line) && rounds[i].replied
    ensures var s := Served(key, rounds);
            |s.acted| == Faithful(key, sent, Lines(rounds)) && (s.running <==> |s.acted| == |rounds|)
  {
    hide Received, Unforgeable, C2S, U64, Genuine;
    if rounds != [] {
      var r, before := rounds[|rounds| - 1], rounds[..|rounds| - 1];
      ExactDelivery(key, sent, before);
      assert Lines(rounds)[..|rounds| - 1] == Lines(before);
      OrderedDelivery(key, sent, before);
      var s := Served(key, before);
      if s.running {
        Small(|before|);
        if Received(key, C2S, s.next, r.line).1.Some? {
          GenuineNext(key, C2S, sent, s.next, r.line);
        } else if s.next < |sent| {
          NextReceived(key, C2S, sent, s.next);
        }
      }
    }
  }

  /** The genuine next frame is received. */
  lemma NextReceived(key: nat, prefix: seq<Byte>, sent: seq<Plain>, next: nat)
    requires next < |sent| && next < U64
    ensures Received(key, prefix, next, Genuine(key, prefix, next, sent[next])).1 == sent[next].message
  {
    hide BigEndian, Nonce;
  }

  /** An untouched wire delivers everything. */
  lemma FaithfulWire(key: nat, sent: seq<Plain>, rounds: seq<Round>)
    requires |sent| <= U64 && Lines(rounds) == Wire(key, C2S, sent)
    requires forall i :: 0 <= i < |rounds| ==> rounds[i].replied && sent[i].message.Some?
    ensures InOrder(Served(key, rounds).acted, sent) && |Served(key, rounds).acted| == |sent|
  {
    hide Genuine, C2S, U64, Served;
    forall i | 0 <= i < |rounds| ensures Unforgeable(key, C2S, sent, rounds[i].line) {
      assert rounds[i].line == Lines(rounds)[i] == Genuine(key, C2S, i, sent[i]);
    }
    ExactDelivery(key, sent, rounds);
    OrderedDelivery(key, sent, rounds);
  }

  /**
    On any wire, and whatever becomes of the replies: the loop acts on the first `n` lines, and ends because
    the reply to the last of them failed, or because the next line is not received. Nothing is acted on later.
  */
  lemma {:induction false} LoopEnds(key: nat, rounds: seq<Round>) returns (n: nat)
    ensures var s := Served(key, rounds);
            && n == |s.acted| <= |rounds|
            && (forall i :: 0 <= i < n ==> Received(key, C2S, i % U64, rounds[i].line).1 == Some(s.acted[i]))
            && (forall i :: 0 <= i < n - 1 ==> rounds[i].replied)
            && (n < |rounds| ==> (n > 0 && !rounds[n - 1].replied) || Received(key, C2S, n % U64, rounds[n].line).1.None?)
            && (s.running <==> n == |rounds| && (n > 0 ==> rounds[n - 1].replied))
            && (s.running ==> s.next == n % U64)
  {
    hide Received, C2S, U64, Served, Turn, Act;
    if rounds == [] {
      n := 0;
      StartsAtZero();
      ServedNothing(key);
    } else {
      var before, r := rounds[..|rounds| - 1], rounds[|rounds| - 1];
      n := LoopEnds(key, before);
      TurnIs(key, rounds);
      var s := Served(key, before);
      if s.running {
        var (next, message) := Received(key, C2S, s.next, r.line);
        Counts(key, C2S, s.next, r.line);
        CounterSteps(n);
        if message.Some? {
          ActIs(s.(next := next), message.value, r);
          n := n + 1;
        }
      }
    }
  }

  lemma ActIs(s: Loop, message: Message, r: Round)
    ensures Act(s, message, r).acted == s.acted + [message] && Act(s, message, r).running == r.replied
    ensures Act(s, message, r).next == s.next
  {
  }

  lemma StartsAtZero()
    ensures 0 % U64 == 0
  {
  }

  predicate Grants(message: Message, granted: bool) {
    granted && (message.PairRequest? || message.AuthRequest?)
  }

  /** One of the messages is a pair or auth request that was granted. */
  predicate Known(acted: seq<Message>, rounds: seq<Round>)
    requires |acted| <= |rounds|
  {
    exists j :: 0 <= j < |acted| && Grants(acted[j], rounds[j].granted)
  }

  /** The commands that come after a granted pair or auth request. */
  function Permitted(acted: seq<Message>, rounds: seq<Round>): seq<nat>
    requires |acted| <= |rounds|
  {
    if acted == [] then []
    else
      var n := |acted| - 1;
      Permitted(acted[..n], rounds) + if acted[n].Command? && Known(acted[..n], rounds) then [acted[n].op] else []
  }

  /** On any wire, forged or not, exactly the commands after a granted request are executed. */
  lemma {:induction false} CommandsNeedGrant(key: nat, rounds: seq<Round>)
    ensures var s := Served(key, rounds);
            && |s.acted| <= |rounds| && (s.running ==> |s.acted| == |rounds|)
            && s.executed == Permitted(s.acted, rounds) && s.authenticated == Known(s.acted, rounds)
  {
    hide Received, Permitted, Known, Served, Turn;
    if rounds == [] {
      NobodyKnown();
    } else {
      var r, before := rounds[|rounds| - 1], rounds[..|rounds| - 1];
      var s := Served(key, before);
      CommandsNeedGrant(key, before);
      PermittedLocal(s.acted, before, rounds);
      TurnIs(key, rounds);
      if s.running && Received(key, C2S, s.next, r.line).1.Some? {
        PermittedMore(s.acted, Received(key, C2S, s.next, r.line).1.value, rounds);
      }
    }
  }

  lemma NobodyKnown()
    ensures Served(0, []) == START && forall key :: Served(key, []) == START
    ensures Permitted([], []) == [] && !Known([], [])
  {
  }

  lemma TurnIs(key: nat, rounds: seq<Round>)
    requires rounds != []
    ensures var s, r := Served(key, rounds[..|rounds| - 1]), rounds[|rounds| - 1];
            var (next, message) := Received(key, C2S, s.next, r.line);
            Served(key, rounds) == if !s.running then s
                                   else if message.None? then s.(next := next, running := false)
                                   else Act(s.(next := next), message.value, r)
  {
    hide Received;
  }

  lemma {:induction false} PermittedLocal(acted: seq<Message>, before: seq<Round>, rounds: seq<Round>)
    requires rounds != [] && before == rounds[..|rounds| - 1] && |acted| <= |before|
    ensures Permitted(acted, before) == Permitted(acted, rounds) && Known(acted, before) == Known(acted, rounds)
  {
    if acted != [] {
      PermittedLocal(acted[..|acted| - 1], before, rounds);
    }
    assert forall j :: 0 <= j < |acted| ==> before[j] == rounds[j];
  }

  lemma PermittedMore(acted: seq<Message>, m: Message, rounds: seq<Round>)
    requires |acted| < |rounds|
    ensures Permitted(acted + [m], rounds) ==
            Permitted(acted, rounds) + if m.Command? && Known(acted, rounds) then [m.op] else []
    ensures Known(acted + [m], rounds) == (Known(acted, rounds) || Grants(m, rounds[|acted|].granted))
  {
    hide Known, Grants;
    assert (acted + [m])[..|acted|] == acted;
    KnownMore(acted, m, rounds);
  }

  lemma KnownMore(acted: seq<Message>, m: Message, rounds: seq<Round>)
    requires |acted| < |rounds|
    ensures Known(acted + [m], rounds) == (Known(acted, rounds) || Grants(m, rounds[|acted|].granted))
  {
    hide Grants;
    var longer := acted + [m];
    assert forall j :: 0 <= j < |acted| ==> Grants(longer[j], rounds[j].granted) == Grants(acted[j], rounds[j].granted);
    assert Grants(longer[|acted|], rounds[|acted|].granted) == Grants(m, rounds[|acted|].granted);
  }

  // ---------------------------------------------------------------------
  // Why the loop must end at the first error
  // ---------------------------------------------------------------------

  /** The messages a loop would act on that skips errors instead of returning. */
  function Stubborn(key: nat, next: nat, lines: seq<Line>): seq<Message>
    decreases |lines|
  {
    if lines == [] then []
    else
      var (next', message) := Received(key, C2S, next, lines[0]);
      (if message.Some? then [message.value] else []) + Stubborn(key, next', lines[1..])
  }

  /**
    `recv` counts a frame before it decrypts it, so one altered ciphertext makes a loop that
    carries on skip a message; the loop that returns acts on nothing.
  */
  lemma SkippingErrorsLosesOrder(key: nat, first: Plain, second: Plain, bits: seq<Byte>)
    requires second.message.Some? && first.message.Some? && first.message != second.message
    ensures var sent := [first, second];
            var lines := [Frame(0, Garbage(bits)), Genuine(key, C2S, 1, second)];
            && (forall i :: 0 <= i < 2 ==> Unforgeable(key, C2S, sent, lines[i]))
            && Stubborn(key, 0, lines) == [second.message.value] && !InOrder(Stubborn(key, 0, lines), sent)
            && (forall rounds: seq<Round> :: Lines(rounds) == lines ==> Served(key, rounds).acted == [])
  {
    hide BigEndian, Nonce, C2S;
    var sent := [first, second];
    var lines := [Frame(0, Garbage(bits)), Genuine(key, C2S, 1, second)];
    assert lines[1].ciphertext == Genuine(key, C2S, 1, sent[1]).ciphertext;
    NextReceived(key, C2S, sent, 1);
    assert lines[1..] == [lines[1]] && [lines[1]][1..] == [];
    assert Received(key, C2S, 0, lines[0]) == (1, None);
    assert Stubborn(key, 1, [lines[1]]) == [second.message.value] + Stubborn(key, 2, []);
    assert Stubborn(key, 0, lines)[0] == second.message.value && sent[0] == first;
    forall rounds: seq<Round> | Lines(rounds) == lines ensures Served(key, rounds).acted == [] {
      assert |rounds| == 2 && rounds[0].line == Lines(rounds)[0] == lines[0];
      var one := rounds[..1];
      assert rounds[..|rounds| - 1] == one && one[..|one| - 1] == [] && one[0] == rounds[0];
      assert Served(key, one) == Turn(key, START, rounds[0]);
    }
  }

  // ---------------------------------------------------------------------
  // The objects
  // ---------------------------------------------------------------------

  class SecureChannel {
    const inboundKey: nat
    const outboundKey: nat
    const inboundPrefix: seq<Byte>
    const outboundPrefix: seq<Byte>
    var nextInboundSeq: nat
    var nextOutboundSeq: nat
    ghost var sent: seq<Plain>
    var written: seq<Line>

    ghost predicate Valid()
      reads this
    {
      nextInboundSeq < U64 && nextOutboundSeq == |sent| % U64 && written == Wire(outboundKey, outboundPrefix, sent)
    }

    constructor (inKey: nat, outKey: nat, inPrefix: seq<Byte>, outPrefix: seq<Byte>)
      ensures Valid() && sent == [] && nextInboundSeq == 0
      ensures inboundKey == inKey && outboundKey == outKey && inboundPrefix == inPrefix && outboundPrefix == outPrefix
    {
      inboundKey, outboundKey, inboundPrefix, outboundPrefix := inKey, outKey, inPrefix, outPrefix;
      nextInboundSeq, nextOutboundSeq, sent, written := 0, 0, [], [];
    }

    method Send(message: Plain)
      requires Valid()
      modifies this
      ensures Valid() && sent == old(sent) + [message] && nextInboundSeq == old(nextInboundSeq)
    {
      var seqNo := nextOutboundSeq;
      nextOutboundSeq := (nextOutboundSeq + 1) % U64;
      var sealed := Sealed(outboundKey, Nonce(outboundPrefix, seqNo), BigEndian(seqNo, 8), message);
      written := written + [Frame(seqNo, sealed)];
      CounterSteps(|sent|);
      sent := sent + [message];
    }

    method Recv(line: Line) returns (message: Option<Message>)
      requires Valid()
      modifies this`nextInboundSeq
      ensures Valid()
      ensures (nextInboundSeq, message) == Received(inboundKey, inboundPrefix, old(nextInboundSeq), line)
    {
      if line.Unreadable? || line.seqNo != nextInboundSeq {
        return None;
      }
      var nonce := Nonce(inboundPrefix, line.seqNo);
      var aad := BigEndian(line.seqNo, 8);
      nextInboundSeq := (nextInboundSeq + 1) % U64;
      var plain := Opened(inboundKey, nonce, aad, line.ciphertext);
      return if plain.None? then None else plain.value.message;
    }
  }

  lemma CounterSteps(n: nat)
    ensures (n % U64 + 1) % U64 == (n + 1) % U64
  {
  }

  /** The receive loop: it returns at the first error, of the wire or of a reply. */
  method HandleConnection(channel: SecureChannel, rounds: seq<Round>) returns (acted: seq<Message>, executed: seq<nat>)
    requires channel.Valid() && channel.nextInboundSeq == 0 && channel.inboundPrefix == C2S
    modifies channel
    ensures var s := Served(channel.inboundKey, rounds); acted == s.acted && executed == s.executed
    ensures |acted| <= |rounds|
    ensures channel.Valid() && channel.sent == old(channel.sent) + Replies(rounds[..|acted|])
  {
    hide Received, Served, Turn;
    acted, executed := [], [];
    var authenticated := false;
    assert rounds[..0] == [];
    ServedNothing(channel.inboundKey);
    for index := 0 to |rounds|
      invariant channel.Valid() && |acted| == index && channel.sent == old(channel.sent) + Replies(rounds[..index])
      invariant Served(channel.inboundKey, rounds[..index]) ==
                Loop(channel.nextInboundSeq, true, authenticated, acted, executed)
    {
      assert rounds[..index + 1][..index] == rounds[..index];
      TurnIs(channel.inboundKey, rounds[..index + 1]);
      var message := channel.Recv(rounds[index].line);
      if message.None? {
        ServedStops(channel.inboundKey, rounds, index + 1);
        return;
      }
      acted := acted + [message.value];
      match message.value {
        case Command(op) =>
          if authenticated {
            executed := executed + [op];
          }
        case Ping(_) =>
        case _ => authenticated := authenticated || rounds[index].granted;
      }
      channel.Send(rounds[index].reply);
      assert Replies(rounds[..index + 1]) == Replies(rounds[..index]) + [rounds[index].reply];
      if !rounds[index].replied {
        ServedStops(channel.inboundKey, rounds, index + 1);
        return;
      }
    }
    assert rounds[..|rounds|] == rounds;
  }

  /** What the daemon answers, round by round. */
  function Replies(rounds: seq<Round>): (rs: seq<Plain>)
    ensures |rs| == |rounds| && forall i :: 0 <= i < |rs| ==> rs[i] == rounds[i].reply
  {
    seq(|rounds|, i requires 0 <= i < |rounds| => rounds[i].reply)
  }

  lemma ServedNothing(key: nat)
    ensures Served(key, []) == START
  {
  }

  /** Once the loop has returned, further rounds change nothing. */
  lemma {:induction false} ServedStops(key: nat, rounds: seq<Round>, n: nat)
    requires n <= |rounds| && !Served(key, rounds[..n]).running
    ensures Served(key, rounds) == Served(key, rounds[..n])
    decreases |rounds|
  {
    hide Received;
    if n == |rounds| {
      assert rounds[..n] == rounds;
    } else {
      assert rounds[..|rounds| - 1][..n] == rounds[..n];
      ServedStops(key, rounds[..|rounds| - 1], n);
    }
  }
}
