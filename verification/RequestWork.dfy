/**
  * Ownership of request work: `apps/server/src/application-work.ts`. Each method is one uninterrupted
  * turn of the event loop, so runs of calls in any order are the interleavings of requests, their
  * children and the shutdown.
  */
module RequestWork {
  import opened Wrappers

  datatype Admission = Admitted(request: nat) | Reentered | ShuttingDown

  /** The contexts are those of the handlers that run, one each. */
  ghost predicate InContexts(handlers: map<nat, int>, contexts: set<int>)
  {
    && (forall k, l :: k in handlers && l in handlers && handlers[k] == handlers[l] ==> k == l)
    && (forall k :: k in handlers ==> handlers[k] in contexts)
    && (forall c :: c in contexts ==> exists k :: k in handlers && handlers[k] == c)
  }

  lemma EnterContext(handlers: map<nat, int>, contexts: set<int>, k: nat, c: int)
    requires InContexts(handlers, contexts) && k !in handlers && c !in contexts
    ensures InContexts(handlers[k := c], contexts + {c})
  {
    var after := handlers[k := c];
    forall d | d in contexts + {c} ensures exists l :: l in after && after[l] == d {
      var l :| if d == c then l == k else l in handlers && handlers[l] == d;
      assert after[l] == d;
    }
  }

  lemma LeaveContext(handlers: map<nat, int>, contexts: set<int>, k: nat)
    requires InContexts(handlers, contexts) && k in handlers
    ensures InContexts(handlers - {k}, contexts - {handlers[k]})
  {
    var after := handlers - {k};
    forall d | d in contexts - {handlers[k]} ensures exists l :: l in after && after[l] == d {
      var l :| l in handlers && handlers[l] == d;
      assert after[l] == d;
    }
  }

  /** What is owned and counted, beside what is really running. */
  datatype Books = Books(owned: set<nat>, pending: map<nat, nat>, handlers: map<nat, int>, children: map<nat, nat>,
                         fired: map<nat, nat>) {
    predicate Runs(r: nat)
    {
      r in handlers || (r in children && children[r] > 0)
    }

    /** `pending` counts the handler and the children; the completion is owned while it is not 0. */
    predicate Counted(r: nat)
      requires r in pending && r in children && r in fired
    {
      && pending[r] == (if r in handlers then 1 else 0) + children[r]
      && (r in owned <==> Runs(r))
      && fired[r] == if Runs(r) then 0 else 1
    }

    predicate Balanced()
    {
      && handlers.Keys <= pending.Keys && owned <= pending.Keys
      && children.Keys == pending.Keys && fired.Keys == pending.Keys
      && forall r :: r in pending ==> Counted(r)
    }
  }

  function AdmittedTo(b: Books, r: nat, c: int): Books
  {
    Books(b.owned + {r}, b.pending[r := 1], b.handlers[r := c], b.children[r := 0], b.fired[r := 0])
  }

  lemma AdmitBalances(b: Books, r: nat, c: int)
    requires b.Balanced() && r !in b.pending
    ensures AdmittedTo(b, r, c).Balanced()
  {
    var after := AdmittedTo(b, r, c);
    forall q | q in after.pending ensures after.Counted(q) {
      assert q != r ==> b.Counted(q);
    }
  }

  /** One less pending for a request; its completion fires when nothing is. */
  function Released(b: Books, r: nat): Books
    requires r in b.pending && b.pending[r] > 0 && r in b.fired
  {
    var pending := b.pending[r := b.pending[r] - 1];
    if pending[r] > 0 then b.(pending := pending)
    else b.(pending := pending, owned := b.owned - {r}, fired := b.fired[r := b.fired[r] + 1])
  }

  lemma HandlerEndBalances(b: Books, r: nat)
    requires b.Balanced() && r in b.handlers
    ensures b.Counted(r) && Released(b.(handlers := b.handlers - {r}), r).Balanced()
  {
    assert b.Counted(r);
    var after := Released(b.(handlers := b.handlers - {r}), r);
    forall q | q in after.pending ensures after.Counted(q) { assert b.Counted(q); }
  }

  function ChildAdded(b: Books, r: nat): Books
    requires r in b.pending && r in b.children
  {
    b.(pending := b.pending[r := b.pending[r] + 1], children := b.children[r := b.children[r] + 1])
  }

  lemma ChildStartBalances(b: Books, r: nat)
    requires b.Balanced() && r in b.pending
    ensures b.pending[r] > 0 <==> b.Runs(r)
    ensures b.Runs(r) ==> ChildAdded(b, r).Balanced()
  {
    assert b.Counted(r);
    if b.Runs(r) {
      var after := ChildAdded(b, r);
      forall q | q in after.pending ensures after.Counted(q) { assert b.Counted(q); }
    }
  }

  lemma ChildEndBalances(b: Books, r: nat)
    requires b.Balanced() && r in b.children && b.children[r] > 0
    ensures b.Counted(r) && Released(b.(children := b.children[r := b.children[r] - 1]), r).Balanced()
  {
    assert b.Counted(r);
    var after := Released(b.(children := b.children[r := b.children[r] - 1]), r);
    forall q | q in after.pending ensures after.Counted(q) { assert b.Counted(q); }
  }

  class ApplicationWork {
    /** Completions that have not fired. */
    var owned: set<nat>
    /** Contexts whose outermost handler runs. */
    var contexts: set<int>
    /** The `pending` counter of every request admitted so far. */
    var pending: map<nat, nat>
    var admitted: nat
    var closing: bool
    /** The completions `close()` waits for, once it has looked at `owned`. */
    var awaited: Option<set<nat>>

    /** What is really running: the handlers with their contexts, and each request's tracked children. */
    var handlers: map<nat, int>
    var children: map<nat, nat>
    /** How often each request's completion has fired. */
    var fired: map<nat, nat>

    function Now(): Books
      reads this
    {
      Books(owned, pending, handlers, children, fired)
    }

    predicate Runs(r: nat)
      reads this
    {
      Now().Runs(r)
    }

    ghost predicate NothingRuns()
      reads this
    {
      forall r :: !Runs(r)
    }

    /** A request is owned exactly while its handler or a child runs; its completion fires once, then. */
    ghost predicate Valid()
      reads this
    {
      && (forall r :: r in pending ==> r < admitted)
      && Now().Balanced()
      && InContexts(handlers, contexts)
      && (awaited.Some? ==> closing && owned <= awaited.value)
    }

    constructor ()
      ensures Valid() && !closing && awaited.None? && pending == map[]
    {
      owned, contexts, pending, admitted, closing, awaited := {}, {}, map[], 0, false, None;
      handlers, children, fired := map[], map[], map[];
    }

    method Become(b: Books)
      modifies this`owned, this`pending, this`handlers, this`children, this`fired
      ensures Now() == b
    {
      owned, pending, handlers, children, fired := b.owned, b.pending, b.handlers, b.children, b.fired;
    }

    /** A request is admitted: it owns its completion, with its handler pending. */
    method Admit(c: int) returns (r: nat)
      requires Valid() && !closing && c !in contexts
      modifies this
      ensures Valid() && closing == old(closing) && awaited == old(awaited)
      ensures r !in old(pending) && contexts == old(contexts) + {c} && Now() == AdmittedTo(old(Now()), r, c)
    {
      r := admitted;
      assert r !in pending;
      AdmitBalances(Now(), r, c);
      EnterContext(handlers, contexts, r, c);
      admitted := admitted + 1;
      contexts := contexts + {c};
      Become(AdmittedTo(Now(), r, c));
    }

    /** The middleware up to `next()`. */
    method Arrive(c: int) returns (answer: Admission)
      requires Valid()
      modifies this
      ensures Valid() && closing == old(closing) && awaited == old(awaited)
      ensures c in old(contexts) ==> answer == Reentered
      ensures c !in old(contexts) ==> (answer == ShuttingDown <==> old(closing))
      ensures answer.Admitted? ==>
                && answer.request !in old(pending) && !old(closing)
                && contexts == old(contexts) + {c} && Now() == AdmittedTo(old(Now()), answer.request, c)
      ensures answer.Admitted? ==>
                && handlers == old(handlers)[answer.request := c] && children == old(children)[answer.request := 0]
                && answer.request in owned
      ensures !answer.Admitted? ==> contexts == old(contexts) && Now() == old(Now())
    {
      if c in contexts { return Reentered; }
      if closing { return ShuttingDown; }
      var r := Admit(c);
      return Admitted(r);
    }

    /** `release`, after the record of what runs has been brought up to date. */
    method Release(r: nat)
      requires r in pending && pending[r] > 0 && r in fired
      modifies this`owned, this`pending, this`fired
      ensures Now() == Released(old(Now()), r)
    {
      pending := pending[r := pending[r] - 1];
      if pending[r] == 0 {
        owned := owned - {r};
        fired := fired[r := fired[r] + 1];
      }
    }

    /** The handler of a request returns or throws. */
    method HandlerEnds(r: nat)
      requires Valid() && r in handlers
      modifies this
      ensures Valid() && closing == old(closing) && awaited == old(awaited)
      ensures Now() == Released(old(Now()).(handlers := old(handlers) - {r}), r)
      ensures handlers == old(handlers) - {r} && children == old(children)
    {
      HandlerEndBalances(Now(), r);
      LeaveContext(handlers, contexts, r);
      contexts := contexts - {handlers[r]};
      handlers := handlers - {r};
      Release(r);
    }

    /** `track`: a child starts unless the request is already complete. */
    method ChildStarts(r: nat) returns (started: bool)
      requires Valid() && r in pending
      modifies this
      ensures Valid() && closing == old(closing) && awaited == old(awaited)
      ensures started <==> old(Runs(r))
      ensures Now() == if started then ChildAdded(old(Now()), r) else old(Now())
      ensures handlers == old(handlers)
      ensures r in old(children)
      ensures children == if started then old(children)[r := old(children)[r] + 1] else old(children)
    {
      ChildStartBalances(Now(), r);
      if pending[r] == 0 { return false; }
      Become(ChildAdded(Now(), r));
      return true;
    }

    /** A child settles, its cleanup included. */
    method ChildEnds(r: nat)
      requires Valid() && r in children && children[r] > 0
      modifies this
      ensures Valid() && closing == old(closing) && awaited == old(awaited)
      ensures Now() == Released(old(Now()).(children := old(children)[r := old(children)[r] - 1]), r)
      ensures handlers == old(handlers) && children == old(children)[r := old(children)[r] - 1]
    {
      ChildEndBalances(Now(), r);
      children := children[r := children[r] - 1];
      Release(r);
    }

    /** A request is owned exactly while its handler or a child runs, and its completion has fired once by then. */
    lemma FiresOnce(r: nat)
      requires Valid() && r in pending
      ensures r in fired && r in children && fired[r] == if r in handlers || children[r] > 0 then 0 else 1
      ensures r in owned <==> r in handlers || children[r] > 0
    {
      assert Now().Counted(r);
    }

    /** `close()`: admission ends with the first call. */
    method Close()
      requires Valid()
      modifies this`closing
      ensures Valid() && closing
    {
      closing := true;
    }

    /** The turn after `close()`, in which `Promise.all` looks at what is owned. */
    method Await()
      requires Valid() && closing && awaited.None?
      modifies this`awaited
      ensures Valid() && awaited == Some(owned)
    {
      awaited := Some(owned);
    }

    /** Has the promise of `close()` resolved: have all completions it waits for fired? */
    predicate Closed()
      reads this
    {
      awaited.Some? && awaited.value !! owned
    }

    /** When `close()` has resolved, no admitted handler or child is running. */
    lemma ClosedMeansQuiet()
      requires Valid() && Closed()
      ensures owned == {} && NothingRuns()
    {
      assert owned <= awaited.value && awaited.value !! owned;
      forall r ensures !Runs(r) {
        if r in pending { assert Now().Counted(r); }
      }
    }
  }
}
