/**
 What a sequence of SMTP callbacks adds up to: the transaction since the last accepted
 `MAIL`, and who is logged in.
 */
module Sessions {
  import opened Mails

  newtype Byte = n: int | 0 <= n < 256

  type Bytes = seq<Byte>

  datatype AuthOutcome = Recognised(name: string) | NotRecognised | AuthUnavailable

  /** Who may connect, and how credentials are judged. */
  datatype Gate = Gate(whitelisted: string -> bool, authenticate: (string, string) -> AuthOutcome, anonymous: bool)

  datatype Callback =
    | Helo(ip: string)
    | MailFrom(ip: string, from: string)
    | Rcpt(to: string)
    | DataStart
    | Data(buf: Bytes)
    | DataEnd
    | Auth(user: string, password: string)

  datatype Mark = Opening | Clearing | Naming

  predicate Marks(g: Gate, mark: Mark, cb: Callback) {
    match mark
    case Opening => cb.MailFrom? && g.whitelisted(cb.ip)
    case Clearing => cb.DataStart? || (cb.MailFrom? && g.whitelisted(cb.ip))
    case Naming => cb.Auth? && g.authenticate(cb.user, cb.password).Recognised?
  }

  /** Index of the last of the first `n` callbacks that carries a mark, or -1. */
  ghost function Last(g: Gate, h: seq<Callback>, mark: Mark, n: nat): (i: int)
    requires n <= |h|
    ensures -1 <= i < n && (i >= 0 ==> Marks(g, mark, h[i]))
  {
    if n == 0 then -1 else if Marks(g, mark, h[n - 1]) then n - 1 else Last(g, h, mark, n - 1)
  }

  /** The recipients named from callback `from` on, up to `n`. */
  function Rcpts(h: seq<Callback>, from: nat, n: nat): seq<string>
    requires n <= |h|
  {
    if n <= from then [] else Rcpts(h, from, n - 1) + (if h[n - 1].Rcpt? then [h[n - 1].to] else [])
  }

  /** The data sent from callback `from` on, up to `n`. */
  function Chunks(h: seq<Callback>, from: nat, n: nat): Bytes
    requires n <= |h|
  {
    if n <= from then [] else Chunks(h, from, n - 1) + (if h[n - 1].Data? then h[n - 1].buf else [])
  }

  datatype Session = Session(identity: Option<string>, from: string, recipients: seq<string>, data: Bytes)

  ghost function IdentityAt(g: Gate, h: seq<Callback>, n: nat): Option<string>
    requires n <= |h|
  {
    var named := Last(g, h, Naming, n);
    if named < 0 then None else Some(g.authenticate(h[named].user, h[named].password).name)
  }

  ghost function FromAt(g: Gate, h: seq<Callback>, n: nat): string
    requires n <= |h|
  {
    var start := Last(g, h, Opening, n);
    if start < 0 then "" else h[start].from
  }

  ghost function RecipientsAt(g: Gate, h: seq<Callback>, n: nat): seq<string>
    requires n <= |h|
  {
    Rcpts(h, Last(g, h, Opening, n) + 1, n)
  }

  ghost function DataAt(g: Gate, h: seq<Callback>, n: nat): Bytes
    requires n <= |h|
  {
    Chunks(h, Last(g, h, Clearing, n) + 1, n)
  }

  /** The transaction as the history has it: recipients and data since the last accepted `MAIL`, data also since the last `DATA`. */
  ghost function SessionOf(g: Gate, h: seq<Callback>): Session {
    Session(IdentityAt(g, h, |h|), FromAt(g, h, |h|), RecipientsAt(g, h, |h|), DataAt(g, h, |h|))
  }

  /** What one callback does to the fields. */
  function Step(g: Gate, s: Session, cb: Callback): Session {
    match cb
    case MailFrom(ip, from) => if g.whitelisted(ip) then Session(s.identity, from, [], []) else s
    case Rcpt(to) => s.(recipients := s.recipients + [to])
    case DataStart => s.(data := [])
    case Data(buf) => s.(data := s.data + buf)
    case Auth(user, password) =>
      (match g.authenticate(user, password)
       case Recognised(name) => s.(identity := Some(name))
       case NotRecognised => s
       case AuthUnavailable => s)
    case Helo(_) => s
    case DataEnd => s
  }

  /** Nothing later carries the mark. */
  lemma {:induction false} LastIsLast(g: Gate, h: seq<Callback>, mark: Mark, n: nat, j: nat)
    requires j < n <= |h| && Marks(g, mark, h[j])
    ensures Last(g, h, mark, n) >= j
  {
    if !Marks(g, mark, h[n - 1]) { LastIsLast(g, h, mark, n - 1, j); }
  }

  /** The fields after the first `n` callbacks, taken one after another. */
  ghost function ReplayTo(g: Gate, h: seq<Callback>, n: nat): Session
    requires n <= |h|
  {
    if n == 0 then Session(None, "", [], []) else Step(g, ReplayTo(g, h, n - 1), h[n - 1])
  }

  ghost function Replay(g: Gate, h: seq<Callback>): Session { ReplayTo(g, h, |h|) }

  lemma {:induction false} ReplayPrefix(g: Gate, h: seq<Callback>, more: seq<Callback>, n: nat)
    requires n <= |h|
    ensures ReplayTo(g, h + more, n) == ReplayTo(g, h, n)
  {
    if n > 0 {
      ReplayPrefix(g, h, more, n - 1);
      assert (h + more)[n - 1] == h[n - 1];
    }
  }

  lemma ReplayExtends(g: Gate, h: seq<Callback>, cb: Callback)
    ensures Replay(g, h + [cb]) == Step(g, Replay(g, h), cb)
  {
    ReplayPrefix(g, h, [cb], |h|);
    assert (h + [cb])[|h|] == cb;
  }

  lemma {:induction false} ReplayedIdentity(g: Gate, h: seq<Callback>, n: nat)
    requires n <= |h|
    ensures ReplayTo(g, h, n).identity == IdentityAt(g, h, n)
  {
    if n > 0 { ReplayedIdentity(g, h, n - 1); }
  }

  lemma {:induction false} ReplayedFrom(g: Gate, h: seq<Callback>, n: nat)
    requires n <= |h|
    ensures ReplayTo(g, h, n).from == FromAt(g, h, n)
  {
    if n > 0 { ReplayedFrom(g, h, n - 1); }
  }

  lemma {:induction false} ReplayedRecipients(g: Gate, h: seq<Callback>, n: nat)
    requires n <= |h|
    ensures ReplayTo(g, h, n).recipients == RecipientsAt(g, h, n)
  {
    if n > 0 {
      ReplayedRecipients(g, h, n - 1);
      assert RecipientsAt(g, h, n - 1) + [] == RecipientsAt(g, h, n - 1);
    }
  }

  lemma {:induction false} ReplayedData(g: Gate, h: seq<Callback>, n: nat)
    requires n <= |h|
    ensures ReplayTo(g, h, n).data == DataAt(g, h, n)
  {
    if n > 0 {
      ReplayedData(g, h, n - 1);
      assert DataAt(g, h, n - 1) + [] == DataAt(g, h, n - 1);
    }
  }

  /** Updating the fields callback by callback leaves exactly what the history says as a whole. */
  lemma ReplayIsSession(g: Gate, h: seq<Callback>)
    ensures Replay(g, h) == SessionOf(g, h)
  {
    ReplayedIdentity(g, h, |h|);
    ReplayedFrom(g, h, |h|);
    ReplayedRecipients(g, h, |h|);
    ReplayedData(g, h, |h|);
  }

  // ----- isolation -----

  lemma {:induction false} LastAfter(g: Gate, pre: seq<Callback>, tail: seq<Callback>, mark: Mark, n: nat)
    requires n <= |tail| && Last(g, tail, mark, n) >= 0
    ensures Last(g, pre + tail, mark, |pre| + n) == |pre| + Last(g, tail, mark, n)
  {
    assert (pre + tail)[|pre| + n - 1] == tail[n - 1];
    if !Marks(g, mark, tail[n - 1]) { LastAfter(g, pre, tail, mark, n - 1); }
  }

  lemma {:induction false} RcptsAfter(pre: seq<Callback>, tail: seq<Callback>, from: nat, n: nat)
    requires n <= |tail|
    ensures Rcpts(pre + tail, |pre| + from, |pre| + n) == Rcpts(tail, from, n)
  {
    if n > from {
      RcptsAfter(pre, tail, from, n - 1);
      assert (pre + tail)[|pre| + n - 1] == tail[n - 1];
    }
  }

  lemma {:induction false} ChunksAfter(pre: seq<Callback>, tail: seq<Callback>, from: nat, n: nat)
    requires n <= |tail|
    ensures Chunks(pre + tail, |pre| + from, |pre| + n) == Chunks(tail, from, n)
  {
    if n > from {
      ChunksAfter(pre, tail, from, n - 1);
      assert (pre + tail)[|pre| + n - 1] == tail[n - 1];
    }
  }

  /** Nothing of earlier transactions carries over an accepted `MAIL`, except who is logged in. */
  lemma TransactionsAreIsolated(g: Gate, pre: seq<Callback>, tail: seq<Callback>)
    requires tail != [] && tail[0].MailFrom? && g.whitelisted(tail[0].ip)
    ensures SessionOf(g, pre + tail) == SessionOf(g, tail).(identity := SessionOf(g, pre + tail).identity)
  {
    var n := |tail|;
    LastIsLast(g, tail, Opening, n, 0);
    LastIsLast(g, tail, Clearing, n, 0);
    LastAfter(g, pre, tail, Opening, n);
    LastAfter(g, pre, tail, Clearing, n);
    var start, cleared := Last(g, tail, Opening, n), Last(g, tail, Clearing, n);
    assert (pre + tail)[|pre| + start] == tail[start];
    RcptsAfter(pre, tail, start + 1, n);
    ChunksAfter(pre, tail, cleared + 1, n);
  }

  // ----- transactions spelled out -----

  /** Greetings, ends of data, `MAIL` from hosts not admitted and refused logins change nothing. */
  lemma Unmoved(g: Gate, h: seq<Callback>, cb: Callback)
    requires cb.Helo? || cb.DataEnd? || (cb.MailFrom? && !g.whitelisted(cb.ip))
             || (cb.Auth? && !g.authenticate(cb.user, cb.password).Recognised?)
    ensures Replay(g, h + [cb]) == Replay(g, h)
  {
    ReplayExtends(g, h, cb);
  }

  /** A recognised login sets the name and nothing else. */
  lemma LoggedIn(g: Gate, h: seq<Callback>, user: string, password: string, name: string)
    requires g.authenticate(user, password) == Recognised(name)
    ensures Replay(g, h + [Auth(user, password)]) == Replay(g, h).(identity := Some(name))
  {
    ReplayExtends(g, h, Auth(user, password));
  }

  /** A `RCPT` for each recipient. */
  function Addressed(tos: seq<string>): seq<Callback> {
    seq(|tos|, i requires 0 <= i < |tos| => Rcpt(tos[i]))
  }

  /** A piece of data for each buffer. */
  function Sent(bufs: seq<Bytes>): seq<Callback> {
    seq(|bufs|, i requires 0 <= i < |bufs| => Data(bufs[i]))
  }

  function Joined(bufs: seq<Bytes>): Bytes {
    if bufs == [] then [] else Joined(bufs[..|bufs| - 1]) + bufs[|bufs| - 1]
  }

  lemma AppendLast<T>(a: seq<T>, b: seq<T>)
    requires b != []
    ensures (a + b[..|b| - 1]) + [b[|b| - 1]] == a + b
  {
  }

  lemma AppendTwice<T>(a: seq<T>, b: seq<T>, d: seq<T>)
    ensures (a + b) + d == a + (b + d)
  {
  }

  lemma {:induction false} RecipientsAdd(g: Gate, h: seq<Callback>, tos: seq<string>)
    ensures Replay(g, h + Addressed(tos)) == Replay(g, h).(recipients := Replay(g, h).recipients + tos)
    decreases |tos|
  {
    if tos == [] {
      assert h + Addressed(tos) == h && Replay(g, h).recipients + tos == Replay(g, h).recipients;
    } else {
      var n := |tos| - 1;
      var before := h + Addressed(tos[..n]);
      RecipientsAdd(g, h, tos[..n]);
      assert h + Addressed(tos) == before + [Rcpt(tos[n])];
      ReplayExtends(g, before, Rcpt(tos[n]));
      AppendLast(Replay(g, h).recipients, tos);
    }
  }

  lemma {:induction false} DataAdds(g: Gate, h: seq<Callback>, bufs: seq<Bytes>)
    ensures Replay(g, h + Sent(bufs)) == Replay(g, h).(data := Replay(g, h).data + Joined(bufs))
    decreases |bufs|
  {
    if bufs == [] {
      assert h + Sent(bufs) == h && Replay(g, h).data + Joined(bufs) == Replay(g, h).data;
    } else {
      var n := |bufs| - 1;
      var before := h + Sent(bufs[..n]);
      DataAdds(g, h, bufs[..n]);
      assert h + Sent(bufs) == before + [Data(bufs[n])];
      ReplayExtends(g, before, Data(bufs[n]));
      AppendTwice(Replay(g, h).data, Joined(bufs[..n]), bufs[n]);
    }
  }

  /**
   After an admitted `MAIL`, recipients and data, whatever came before: exactly that sender,
   those recipients and that data, and whoever was logged in.
   */
  lemma WholeTransaction(g: Gate, pre: seq<Callback>, ip: string, from: string, tos: seq<string>, bufs: seq<Bytes>)
    requires g.whitelisted(ip)
    ensures Replay(g, ((pre + [MailFrom(ip, from)]) + Addressed(tos) + [DataStart]) + Sent(bufs)) ==
            Session(Replay(g, pre).identity, from, tos, Joined(bufs))
  {
    var a := pre + [MailFrom(ip, from)];
    var b := a + Addressed(tos);
    assert Replay(g, a) == Session(Replay(g, pre).identity, from, [], []) by { ReplayExtends(g, pre, MailFrom(ip, from)); }
    assert Replay(g, b) == Session(Replay(g, pre).identity, from, tos, []) by {
      RecipientsAdd(g, a, tos);
      assert [] + tos == tos;
    }
    assert Replay(g, b + [DataStart]) == Session(Replay(g, pre).identity, from, tos, []) by { ReplayExtends(g, b, DataStart); }
    DataAdds(g, b + [DataStart], bufs);
    assert [] + Joined(bufs) == Joined(bufs);
  }
}
