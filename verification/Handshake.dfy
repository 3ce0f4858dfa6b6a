/** The authentication handshake: a signature for the first challenge, the public key for the second, and
    no third chance. */
module Handshake {
  import opened Bytes
  import opened Wrappers
  import opened Messages
  import Sequences

  const AUTH_TYPE_SIGNATURE: u32 := 2
  const AUTH_TYPE_PUBLICKEY: u32 := 3

  datatype AuthMode = New | Existing

  /** How an authentication ends: with the CNXN of the device, with a challenge that was not answered, or
      not at all because no more messages come. */
  datatype Outcome = Connected(cnxn: Message) | Rejected | Starved

  /** The user's key: how it signs a challenge, and its public part. */
  datatype Key = Key(sign: Data -> Data, public: Data)

  function Answer(key: Key, mode: AuthMode, challenge: Message): Message {
    match mode
    case Existing => NewMessage(AUTH, AUTH_TYPE_SIGNATURE, 0, key.sign(challenge.payload))
    case New => NewMessage(AUTH, AUTH_TYPE_PUBLICKEY, 0, key.public)
  }

  /** The connection during authentication: messages still to be read, messages sent, and the challenge
      handed over by an earlier attempt. */
  datatype State = State(incoming: seq<Message>, sent: seq<Message>, lastAuth: Option<Message>)

  /** The messages an attempt will look at. */
  function Input(s: State): seq<Message> {
    (if s.lastAuth.Some? then [s.lastAuth.value] else []) + s.incoming
  }

  /** One `auth`: `mode` is gone once it was used. */
  function Attempt(s: State, mode: Option<AuthMode>, key: Key): (State, Outcome)
    decreases |Input(s)|
  {
    var all := Input(s);
    if all == [] then
      (s.(lastAuth := None), Starved)
    else
      var m, t := all[0], State(all[1..], s.sent, None);
      match m.header.command
      case AUTH =>
        if mode.None? then (t.(lastAuth := Some(m)), Rejected)
        else Attempt(t.(sent := s.sent + [Answer(key, mode.value, m)]), None, key)
      case CNXN => (t, Connected(m))
      case _ => Attempt(t, mode, key)
  }

  class AuthTransport {
    const key: Key
    var incoming: seq<Message>
    var sent: seq<Message>
    var lastAuth: Option<Message>

    ghost function Abs(): State
      reads this
    {
      State(incoming, sent, lastAuth)
    }

    constructor (key: Key, incoming: seq<Message>)
      ensures this.key == key && Abs() == State(incoming, [], None)
    {
      this.key := key;
      this.incoming := incoming;
      this.sent := [];
      this.lastAuth := None;
    }

    method Auth(mode: AuthMode) returns (r: Outcome)
      modifies this
      ensures (Abs(), r) == Attempt(old(Abs()), Some(mode), key)
    {
      var left := Some(mode);
      while true
        invariant Attempt(Abs(), left, key) == Attempt(old(Abs()), Some(mode), key)
        decreases |Input(Abs())|
      {
        ghost var before := Abs();
        var m;
        if lastAuth.Some? {
          m := lastAuth.value;
          lastAuth := None;
        } else if incoming == [] {
          return Starved;
        } else {
          m := incoming[0];
          incoming := incoming[1..];
        }
        assert Input(before)[0] == m && Input(before)[1..] == incoming;
        assert Input(Abs()) == incoming;
        match m.header.command {
          case AUTH =>
            if left.None? {
              lastAuth := Some(m);
              return Rejected;
            }
            sent := sent + [Answer(key, left.value, m)];
            left := None;
          case CNXN =>
            return Connected(m);
          case _ =>
        }
      }
    }

    /** The caller: the known key first, then, if that is rejected, the offer of the key. */
    method Connect() returns (r: Outcome)
      modifies this
      ensures (Abs(), r) == TwoAttempts(old(Abs()), key)
    {
      r := Auth(Existing);
      if r.Rejected? {
        r := Auth(New);
      }
    }
  }

  function TwoAttempts(s: State, key: Key): (State, Outcome) {
    var (t, r) := Attempt(s, Some(Existing), key);
    if r.Rejected? then Attempt(t, Some(New), key) else (t, r)
  }

  // ---- What the device sees ---------------------------------------------------------------------

  /** The challenges before the first CNXN. */
  function Challenges(ms: seq<Message>): seq<Message> {
    if ms == [] || ms[0].header.command == CNXN then []
    else (if ms[0].header.command == AUTH then [ms[0]] else []) + Challenges(ms[1..])
  }

  function FirstCnxn(ms: seq<Message>): Option<Message> {
    if ms == [] then None
    else if ms[0].header.command == CNXN then Some(ms[0])
    else FirstCnxn(ms[1..])
  }

  /** What follows the first challenge. */
  function AfterChallenge(ms: seq<Message>): seq<Message> {
    if ms == [] then []
    else if ms[0].header.command == AUTH then ms[1..]
    else AfterChallenge(ms[1..])
  }

  function Ending(ms: seq<Message>): Outcome {
    match FirstCnxn(ms)
    case Some(m) => Connected(m)
    case None => Starved
  }

  /** With nothing left to offer, an attempt ends at the next challenge and hands it over. */
  lemma {:induction false} AuthWithoutMode(s: State, key: Key)
    ensures var (t, r) := Attempt(s, None, key);
            var ms := Input(s);
            && t.sent == s.sent
            && (if Challenges(ms) == [] then r == Ending(ms)
                else r == Rejected && t == State(AfterChallenge(ms), s.sent, Some(Challenges(ms)[0])))
    decreases |Input(s)|
  {
    var ms := Input(s);
    if ms != [] {
      var t := State(ms[1..], s.sent, None);
      assert Input(t) == ms[1..];
      AuthWithoutMode(t, key);
    }
  }

  /** With something to offer, it answers the first challenge and goes on without. */
  lemma {:induction false} AuthWithMode(s: State, mode: AuthMode, key: Key)
    ensures var ms := Input(s);
            if Challenges(ms) == [] then
              Attempt(s, Some(mode), key).0.sent == s.sent && Attempt(s, Some(mode), key).1 == Ending(ms)
            else
              Attempt(s, Some(mode), key)
              == Attempt(State(AfterChallenge(ms), s.sent + [Answer(key, mode, Challenges(ms)[0])], None), None, key)
    decreases |Input(s)|
  {
    var ms := Input(s);
    if ms != [] {
      var t := State(ms[1..], s.sent, None);
      assert Input(t) == ms[1..];
      if ms[0].header.command != AUTH && ms[0].header.command != CNXN {
        AuthWithMode(t, mode, key);
      }
    }
  }

  lemma {:induction false} ChallengesGoOn(ms: seq<Message>)
    ensures Challenges(ms) != [] ==>
      && Challenges(AfterChallenge(ms)) == Challenges(ms)[1..]
      && Ending(AfterChallenge(ms)) == Ending(ms)
  {
    if ms != [] && ms[0].header.command != CNXN {
      ChallengesGoOn(ms[1..]);
      if ms[0].header.command == AUTH {
        assert ([ms[0]] + Challenges(ms[1..]))[1..] == Challenges(ms[1..]);
      } else {
        assert [] + Challenges(ms[1..]) == Challenges(ms[1..]);
      }
    }
  }

  /** The first attempt answers the first challenge, and stops at the second. */
  lemma FirstAttempt(incoming: seq<Message>, key: Key)
    ensures var (t, r) := Attempt(State(incoming, [], None), Some(Existing), key);
            var c, one := Challenges(incoming), AfterChallenge(incoming);
            if c == [] then
              t.sent == [] && r == Ending(incoming)
            else
              && t.sent == [Answer(key, Existing, c[0])]
              && Challenges(one) == c[1..] && Ending(one) == Ending(incoming)
              && (if |c| == 1 then r == Ending(incoming)
                  else r == Rejected && t == State(AfterChallenge(one), t.sent, Some(c[1])))
  {
    var s := State(incoming, [], None);
    Sequences.Empty(incoming);
    assert Input(s) == incoming;
    AuthWithMode(s, Existing, key);
    var c := Challenges(incoming);
    if c != [] {
      ChallengesGoOn(incoming);
      var s1 := State(AfterChallenge(incoming), [] + [Answer(key, Existing, c[0])], None);
      Sequences.Empty(AfterChallenge(incoming));
      assert Input(s1) == AfterChallenge(incoming);
      AuthWithoutMode(s1, key);
    }
  }

  /** The second attempt starts with the challenge the first one left. */
  lemma SecondAttempt(one: seq<Message>, sent: seq<Message>, key: Key)
    requires Challenges(one) != []
    ensures var c := Challenges(one);
            var (t, r) := Attempt(State(AfterChallenge(one), sent, Some(c[0])), Some(New), key);
            t.sent == sent + [Answer(key, New, c[0])] && r == if |c| >= 2 then Rejected else Ending(one)
  {
    var c := Challenges(one);
    ChallengesGoOn(one);
    var two := AfterChallenge(one);
    var s := State(two, sent, Some(c[0]));
    HeadIsChallenge(one);
    assert Input(s) == [c[0]] + two;
    assert ([c[0]] + two)[1..] == two;
    var s2 := State(two, sent + [Answer(key, New, c[0])], None);
    assert Input(s2) == two;
    AuthWithoutMode(s2, key);
  }

  lemma {:induction false} HeadIsChallenge(ms: seq<Message>)
    ensures Challenges(ms) != [] ==> Challenges(ms)[0].header.command == AUTH
  {
    if ms != [] && ms[0].header.command != CNXN {
      HeadIsChallenge(ms[1..]);
    }
  }

  /** A signature of the challenge by the user's key. */
  predicate IsSignature(m: Message, challenge: Message, key: Key) {
    m.header.command == AUTH && m.header.arg0 == 2 && m.header.arg1 == 0 && m.payload == key.sign(challenge.payload)
  }

  /** The offer of the public key. */
  predicate IsOffer(m: Message, key: Key) {
    m.header.command == AUTH && m.header.arg0 == 3 && m.header.arg1 == 0 && m.payload == key.public
  }

  /** One attempt: with the existing key it signs the first challenge, otherwise it offers the key, and it sends
      nothing else. */
  lemma AttemptSends(s: State, mode: AuthMode, key: Key)
    ensures var c, sent := Challenges(Input(s)), Attempt(s, Some(mode), key).0.sent;
            if c == [] then sent == s.sent
            else
              && |sent| == |s.sent| + 1 && sent[..|s.sent|] == s.sent
              && (mode.Existing? ==> IsSignature(sent[|s.sent|], c[0], key))
              && (mode.New? ==> IsOffer(sent[|s.sent|], key))
  {
    AuthWithMode(s, mode, key);
    var c := Challenges(Input(s));
    if c != [] {
      AuthWithoutMode(State(AfterChallenge(Input(s)), s.sent + [Answer(key, mode, c[0])], None), key);
    }
  }

  /** Both attempts: what is sent is a signature of the first challenge and then, after a second one, the offer. */
  lemma AnswersAreRight(incoming: seq<Message>, key: Key)
    ensures var c, sent := Challenges(incoming), TwoAttempts(State(incoming, [], None), key).0.sent;
            && |sent| == (if |c| < 2 then |c| else 2)
            && (|c| >= 1 ==> IsSignature(sent[0], c[0], key))
            && (|c| >= 2 ==> IsOffer(sent[1], key))
  {
    HandshakeIsExact(incoming, key);
  }

  /** For every stream of messages: the first challenge is answered with its signature, the second with the
      public key, nothing else is sent; a third challenge is a rejection; and otherwise the handshake
      ends with the first CNXN, if it comes. */
  lemma HandshakeIsExact(incoming: seq<Message>, key: Key)
    ensures var (t, r) := TwoAttempts(State(incoming, [], None), key);
            var c := Challenges(incoming);
            && t.sent == (if |c| >= 1 then [Answer(key, Existing, c[0])] else [])
                         + (if |c| >= 2 then [Answer(key, New, c[1])] else [])
            && r == (if |c| >= 3 then Rejected else Ending(incoming))
  {
    FirstAttempt(incoming, key);
    var c := Challenges(incoming);
    if |c| >= 2 {
      SecondAttempt(AfterChallenge(incoming), [Answer(key, Existing, c[0])], key);
    }
  }
}
