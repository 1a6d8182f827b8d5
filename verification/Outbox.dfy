/** Logs of sent messages, read per subject. */
module Outbox {

  /** The messages about one subject, in the order they were sent. */
  function About<T, K(==)>(subject: T -> K, id: K, sent: seq<T>): seq<T> {
    if sent == [] then []
    else
      var before, last := sent[..|sent| - 1], sent[|sent| - 1];
      About(subject, id, before) + if subject(last) == id then [last] else []
  }

  /** Messages appended about one subject reach its reading, in order, and no other's. */
  lemma {:induction false} AboutAppended<T, K(!new)>(subject: T -> K, id: K, sent: seq<T>, more: seq<T>)
    requires forall m | m in more :: subject(m) == id
    ensures About(subject, id, sent + more) == About(subject, id, sent) + more
    ensures forall other | other != id :: About(subject, other, sent + more) == About(subject, other, sent)
  {
    if more == [] {
      assert sent + more == sent;
    } else {
      var n := |more| - 1;
      AboutAppended(subject, id, sent, more[..n]);
      assert (sent + more)[..|sent + more| - 1] == sent + more[..n];
      assert more == more[..n] + [more[n]];
    }
  }
}
