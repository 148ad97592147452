/** Running a queue of entries through any step function. */
module Runs {

  ghost function Exec<W, E>(step: (W, E) -> W, w: W, q: seq<E>): W {
    if q == [] then w else step(Exec(step, w, q[..|q| - 1]), q[|q| - 1])
  }

  lemma ExecSnoc<W, E>(step: (W, E) -> W, w: W, q: seq<E>, e: E)
    ensures Exec(step, w, q + [e]) == step(Exec(step, w, q), e)
  {
    var c := q + [e];
    assert c[..|c| - 1] == q && c[|c| - 1] == e;
  }

  lemma {:induction false} ExecAppend<W, E>(step: (W, E) -> W, w: W, a: seq<E>, b: seq<E>)
    ensures Exec(step, w, a + b) == Exec(step, Exec(step, w, a), b)
    decreases |b|
  {
    if b == [] {
      assert a + b == a;
    } else {
      var c := a + b;
      assert c[..|c| - 1] == a + b[..|b| - 1] && c[|c| - 1] == b[|b| - 1];
      ExecAppend(step, w, a, b[..|b| - 1]);
    }
  }

  /** Two queues that leave the same world. */
  ghost predicate Same<W(!new), E>(step: (W, E) -> W, w: W, p: seq<E>, q: seq<E>) {
    Exec(step, w, p) == Exec(step, w, q)
  }

  lemma SameSnoc<W(!new), E>(step: (W, E) -> W, w: W, p: seq<E>, q: seq<E>, e: E)
    requires Same(step, w, p, q)
    ensures Same(step, w, p + [e], q + [e])
  {
    ExecSnoc(step, w, p, e);
    ExecSnoc(step, w, q, e);
  }

  /** An entry appended to p may as well have come before the last part of q, if it commutes with that part. */
  lemma SameInserted<W(!new), E>(step: (W, E) -> W, w: W, p: seq<E>, front: seq<E>, back: seq<E>, e: E)
    requires Same(step, w, p, front + back)
    requires step(Exec(step, Exec(step, w, front), back), e) == Exec(step, step(Exec(step, w, front), e), back)
    ensures Same(step, w, p + [e], front + [e] + back)
  {
    ExecAppend(step, w, front, back);
    ExecSnoc(step, w, p, e);
    ExecSnoc(step, w, front, e);
    ExecAppend(step, w, front + [e], back);
  }

  /** The entries of one owner, in order. */
  ghost function Project<E>(owner: E -> nat, q: seq<E>, o: nat): seq<E> {
    if q == [] then []
    else Project(owner, q[..|q| - 1], o) + (if owner(q[|q| - 1]) == o then [q[|q| - 1]] else [])
  }

  lemma {:induction false} ProjectAppend<E>(owner: E -> nat, a: seq<E>, b: seq<E>, o: nat)
    ensures Project(owner, a + b, o) == Project(owner, a, o) + Project(owner, b, o)
    decreases |b|
  {
    if b == [] {
      assert a + b == a;
    } else {
      var c := a + b;
      assert c[..|c| - 1] == a + b[..|b| - 1] && c[|c| - 1] == b[|b| - 1];
      ProjectAppend(owner, a, b[..|b| - 1], o);
    }
  }

  lemma {:induction false} ProjectOthers<E>(owner: E -> nat, q: seq<E>, o: nat)
    requires forall i :: 0 <= i < |q| ==> owner(q[i]) != o
    ensures Project(owner, q, o) == []
    decreases |q|
  {
    if q != [] { ProjectOthers(owner, q[..|q| - 1], o); }
  }

  /** The last entry of an owner that has one. */
  lemma {:induction false} LastOf<E>(owner: E -> nat, q: seq<E>, o: nat) returns (k: nat)
    requires Project(owner, q, o) != []
    ensures k < |q| && owner(q[k]) == o
    ensures forall i :: k < i < |q| ==> owner(q[i]) != o
    ensures Project(owner, q, o)[|Project(owner, q, o)| - 1] == q[k]
    decreases |q|
  {
    if owner(q[|q| - 1]) == o {
      k := |q| - 1;
    } else {
      k := LastOf(owner, q[..|q| - 1], o);
    }
  }

  /** Steps of different owners commute, in every good world, on the entries considered. */
  ghost predicate Independent<W(!new), E(!new)>(step: (W, E) -> W, good: W -> bool, allowed: E -> bool, owner: E -> nat) {
    && (forall w, e :: good(w) && allowed(e) ==> good(step(w, e)))
    && (forall w, e, e' :: good(w) && allowed(e) && allowed(e') && owner(e) != owner(e') ==>
          step(step(w, e), e') == step(step(w, e'), e))
  }

  ghost predicate AllAllowed<E>(allowed: E -> bool, q: seq<E>) {
    forall i :: 0 <= i < |q| ==> allowed(q[i])
  }

  lemma {:induction false} ExecStaysGood<W(!new), E(!new)>(step: (W, E) -> W, good: W -> bool, allowed: E -> bool,
                                                           owner: E -> nat, w: W, q: seq<E>)
    requires Independent(step, good, allowed, owner) && good(w) && AllAllowed(allowed, q)
    ensures good(Exec(step, w, q))
    decreases |q|
  {
    if q != [] { ExecStaysGood(step, good, allowed, owner, w, q[..|q| - 1]); }
  }

  /** An entry moves behind entries of other owners. */
  lemma {:induction false} MoveBehind<W(!new), E(!new)>(step: (W, E) -> W, good: W -> bool, allowed: E -> bool,
                                                        owner: E -> nat, w: W, e: E, q: seq<E>)
    requires Independent(step, good, allowed, owner) && good(w) && allowed(e) && AllAllowed(allowed, q)
    requires forall i :: 0 <= i < |q| ==> owner(q[i]) != owner(e)
    ensures Exec(step, step(w, e), q) == step(Exec(step, w, q), e)
    decreases |q|
  {
    if q != [] {
      var rest, last := q[..|q| - 1], q[|q| - 1];
      MoveBehind(step, good, allowed, owner, w, e, rest);
      ExecStaysGood(step, good, allowed, owner, w, rest);
    }
  }

  lemma WithoutKeepsProjection<E>(owner: E -> nat, q: seq<E>, k: nat, p: seq<E>, x: E, o: nat)
    requires k < |q| && q[k] == x && (forall i :: k < i < |q| ==> owner(q[i]) != owner(x))
    requires Project(owner, p + [x], o) == Project(owner, q, o)
    ensures Project(owner, p, o) == Project(owner, q[..k] + q[k + 1..], o)
  {
    var front, back := q[..k], q[k + 1..];
    assert q == front + [x] + back;
    ProjectSnoc(owner, p, x, o);
    ProjectAppend(owner, front + [x], back, o);
    ProjectSnoc(owner, front, x, o);
    ProjectAppend(owner, front, back, o);
    if owner(x) == o {
      ProjectOthers(owner, back, o);
      assert Project(owner, front, o) + [x] + [] == Project(owner, front, o) + [x];
      SnocInjective(Project(owner, p, o), Project(owner, front, o), x);
      assert Project(owner, front, o) + [] == Project(owner, front, o);
    } else {
      assert Project(owner, p, o) + [] == Project(owner, p, o);
      assert Project(owner, front, o) + [] == Project(owner, front, o);
    }
  }

  lemma ProjectSnoc<E>(owner: E -> nat, q: seq<E>, x: E, o: nat)
    ensures Project(owner, q + [x], o) == Project(owner, q, o) + (if owner(x) == o then [x] else [])
  {
    var c := q + [x];
    assert c[..|c| - 1] == q && c[|c| - 1] == x;
  }

  lemma SnocInjective<E>(a: seq<E>, b: seq<E>, x: E)
    requires a + [x] == b + [x]
    ensures a == b
  {
    assert (a + [x])[..|a|] == a && (b + [x])[..|b|] == b;
  }

  lemma LastProjects<E>(owner: E -> nat, q: seq<E>)
    requires q != []
    ensures Project(owner, q, owner(q[|q| - 1])) != []
  {
  }

  /** Any two interleavings of the same per-owner sequences leave the same world. */
  lemma {:induction false} InterleavingsAgree<W(!new), E(!new)>(step: (W, E) -> W, good: W -> bool, allowed: E -> bool,
                                                                owner: E -> nat, w: W, p: seq<E>, q: seq<E>)
    requires Independent(step, good, allowed, owner) && good(w) && AllAllowed(allowed, p) && AllAllowed(allowed, q)
    requires forall o :: Project(owner, p, o) == Project(owner, q, o)
    ensures Exec(step, w, p) == Exec(step, w, q)
    decreases |p|
  {
    if p == [] {
      if q != [] { LastProjects(owner, q); }
    } else {
      var rest, x := p[..|p| - 1], p[|p| - 1];
      var o := owner(x);
      assert Project(owner, p, o) == Project(owner, rest, o) + [x];
      var k := LastOf(owner, q, o);
      assert q[k] == x;
      var front, back := q[..k], q[k + 1..];
      assert p == rest + [x];
      forall o' ensures Project(owner, rest, o') == Project(owner, front + back, o') {
        WithoutKeepsProjection(owner, q, k, rest, x, o');
      }
      InterleavingsAgree(step, good, allowed, owner, w, rest, front + back);
      assert q == (front + [x]) + back;
      ExecAppend(step, w, front + [x], back);
      ExecSnoc(step, w, front, x);
      ExecStaysGood(step, good, allowed, owner, w, front);
      MoveBehind(step, good, allowed, owner, Exec(step, w, front), x, back);
      ExecAppend(step, w, front, back);
    }
  }
}
