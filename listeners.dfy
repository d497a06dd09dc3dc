/** Error and trace listeners. A listener is a one-way observer; the model
    records every notification it receives in an append-only log of
    deliveries, in the order the parser makes them. */
module Listeners {
  import opened Tokens

  /** The identity of a registered listener object. */
  datatype Listener = Listener(id: nat)

  /** The immutable error record handed to error listeners. */
  datatype ParserError = ParserError(startToken: Token, endToken: Token, message: string)

  datatype TraceEvent = Enter | Exit | Consume | Match

  /** What a trace event is about: a token (possibly null) or a rule node,
      identified by its index in the syntax tree. */
  datatype TraceSubject = OnToken(token: Option<Token>) | OnRule(rule: nat)

  datatype TraceMessage = TraceMessage(subject: TraceSubject, ruleName: string, event: TraceEvent)

  /** One notification: which listener received which message. */
  datatype Delivery<M> = Delivery(listener: Listener, message: M)

  /** Notifying every listener of one message, in list order. */
  function Broadcast<M>(listeners: seq<Listener>, m: M): (d: seq<Delivery<M>>)
    ensures |d| == |listeners|
  {
    if listeners == [] then []
    else Broadcast(listeners[..|listeners| - 1], m) + [Delivery(listeners[|listeners| - 1], m)]
  }

  /** The i-th delivery of a broadcast goes to the i-th listener. */
  lemma {:induction false} BroadcastAt<M>(listeners: seq<Listener>, m: M, i: nat)
    requires i < |listeners|
    ensures Broadcast(listeners, m)[i] == Delivery(listeners[i], m)
    decreases |listeners|
  {
    if i < |listeners| - 1 {
      BroadcastAt(listeners[..|listeners| - 1], m, i);
    }
  }

  /** Notifying every listener of each message in turn. */
  function Deliveries<M>(listeners: seq<Listener>, msgs: seq<M>): (d: seq<Delivery<M>>)
    ensures |d| == |listeners| * |msgs|
  {
    if msgs == [] then []
    else
      var rest := Deliveries(listeners, msgs[1..]);
      assert |rest| == |listeners| * (|msgs| - 1);
      Broadcast(listeners, msgs[0]) + rest
  }

  /** With a single listener, one message makes one delivery. */
  lemma DeliveriesToOne<M>(l: Listener, m: M)
    ensures Deliveries([l], [m]) == [Delivery(l, m)]
  {
    assert [l][..0] == [];
    assert [m][1..] == [];
    assert Deliveries([l], [m]) == Broadcast([l], m) + Deliveries<M>([l], []);
  }

  /** Index of the first occurrence of x in s. */
  function IndexOf<T(==)>(s: seq<T>, x: T): (k: nat)
    requires x in s
    ensures k < |s| && s[k] == x && x !in s[..k]
  {
    if s[0] == x then 0 else 1 + IndexOf(s[1..], x)
  }

  /** List.Remove: drops the first occurrence of x, keeping the order of the
      rest; leaves the list unchanged when x does not occur. */
  function RemoveFirst<T(==)>(s: seq<T>, x: T): (r: seq<T>)
    ensures x !in s ==> r == s
    ensures x in s ==> r == s[..IndexOf(s, x)] + s[IndexOf(s, x) + 1..]
  {
    if s == [] then []
    else if s[0] == x then s[1..]
    else
      var rest := RemoveFirst(s[1..], x);
      assert x in s ==>
        var k := IndexOf(s[1..], x);
        && IndexOf(s, x) == k + 1
        && s[..k + 1] == [s[0]] + s[1..][..k]
        && s[k + 2..] == s[1..][k + 1..];
      [s[0]] + rest
  }
}
