/** `showMessage(message, type)` (script.js:107-152): the page's floating
    `.message` elements and their hide timers. Styling and the slide-in and
    slide-out animations are not modelled; the 5000 ms timer together with the
    300 ms removal it schedules is one step, `ExpireTimer`. */
module Notifications {

  /** The `type` argument, which selects the `message-${type}` class. */
  datatype Kind = Success | Error

  /** The texts the page shows: one per validation failure, and the thank-you
      note, of which only the submitter's name is kept. */
  datatype Message = AskName | AskEmail | AskMessage | Thanks(name: string)

  /** One `.message` element; `id` stands for the element's identity. */
  datatype Notice = Notice(id: nat, message: Message, kind: Kind)

  /** The elements after `showMessage` adds `n`: `querySelector('.message')`
      picks the first one in document order, which is removed, and `n` is
      appended at the end of `document.body`. */
  function AfterShow(page: seq<Notice>, n: Notice): (r: seq<Notice>)
    ensures |r| == if page == [] then 1 else |page|
    ensures r[|r| - 1] == n
    ensures forall k | 0 <= k < |r| - 1 :: r[k] == page[k + 1]
  {
    (if page == [] then [] else page[1..]) + [n]
  }

  /** On a page holding at most one notification, showing a new one leaves
      exactly that one. */
  lemma ShowLeavesOnlyNew(page: seq<Notice>, n: Notice)
    requires |page| <= 1
    ensures AfterShow(page, n) == [n]
  {
  }

  /** The elements after `messageDiv.remove()` for the element `id` (a no-op
      when it is no longer attached: the `parentNode` check). Every other
      element stays, in order. */
  function Without(page: seq<Notice>, id: nat): (r: seq<Notice>)
    ensures forall x :: x in r <==> x in page && x.id != id
    ensures |r| <= |page|
  {
    if page == [] then []
    else (if page[0].id == id then [] else [page[0]]) + Without(page[1..], id)
  }

  /** No two elements of `page` share an id. */
  predicate DistinctIds(page: seq<Notice>) {
    forall i, j | 0 <= i < j < |page| :: page[i].id != page[j].id
  }

  /** Removing an attached element takes out exactly that element and leaves
      the others in their places and order. */
  lemma {:induction false} WithoutAt(page: seq<Notice>, k: nat)
    requires k < |page| && DistinctIds(page)
    ensures Without(page, page[k].id) == page[..k] + page[k + 1..]
  {
    if k == 0 {
      WithoutHead(page);
    } else {
      var rest := page[1..];
      DistinctTail(page);
      assert rest[k - 1] == page[k];
      WithoutAt(rest, k - 1);
      WithoutCons(page, page[k].id);
      ConsSplice(page, k);
    }
  }

  /** Removing the head of a page with distinct ids leaves its tail. */
  lemma WithoutHead(page: seq<Notice>)
    requires |page| > 0 && DistinctIds(page)
    ensures Without(page, page[0].id) == page[1..]
  {
    FirstIdUnique(page);
    StaleTimerHarmless(page[1..], page[0].id);
  }

  /** One step of `Without` on a non-empty page, for an id the head lacks. */
  lemma WithoutCons(page: seq<Notice>, id: nat)
    requires |page| > 0 && page[0].id != id
    ensures Without(page, id) == [page[0]] + Without(page[1..], id)
  {
  }

  /** Putting the head back in front of the tail with element `k - 1` cut out
      is the page with element `k` cut out. */
  lemma ConsSplice(page: seq<Notice>, k: nat)
    requires 0 < k < |page|
    ensures [page[0]] + (page[1..][..k - 1] + page[1..][k..]) == page[..k] + page[k + 1..]
  {
    assert [page[0]] + page[1..][..k - 1] == page[..k];
    assert page[1..][k..] == page[k + 1..];
  }

  /** With distinct ids, the head's id occurs nowhere in the tail. */
  lemma FirstIdUnique(page: seq<Notice>)
    requires |page| > 0 && DistinctIds(page)
    ensures forall x | x in page[1..] :: x.id != page[0].id
  {
    forall x | x in page[1..] ensures x.id != page[0].id {
      var j :| 0 <= j < |page[1..]| && page[1..][j] == x;
      assert page[j + 1] == x;
    }
  }

  /** The tail of a page with distinct ids has distinct ids. */
  lemma DistinctTail(page: seq<Notice>)
    requires |page| > 0 && DistinctIds(page)
    ensures DistinctIds(page[1..])
  {
    forall i, j | 0 <= i < j < |page[1..]| ensures page[1..][i].id != page[1..][j].id {
      assert page[1..][i] == page[i + 1] && page[1..][j] == page[j + 1];
    }
  }

  /** A timer whose element is gone removes nothing, in particular not a
      newer notification that replaced it. */
  lemma {:induction false} StaleTimerHarmless(page: seq<Notice>, id: nat)
    requires forall x | x in page :: x.id != id
    ensures Without(page, id) == page
  {
    if page != [] {
      assert page[0] in page;
      StaleTimerHarmless(page[1..], id);
      assert page == [page[0]] + page[1..];
    }
  }

  /** The timer of the element on display removes it and leaves the page empty. */
  lemma OwnTimerRemoves(n: Notice)
    ensures Without([n], n.id) == []
  {
  }

  /** The `.message` elements of the page and the hide timers that are still
      pending, each named by the element it was created for. */
  class Presenter {
    var shown: seq<Notice>
    var nextId: nat
    var timers: set<nat>

    /** At most one notification exists; every id used so far is below
        `nextId`; each element on display still has its own pending timer. */
    ghost predicate Valid()
      reads this
    {
      |shown| <= 1 &&
      (forall x | x in shown :: x.id < nextId && x.id in timers) &&
      (forall t | t in timers :: t < nextId)
    }

    constructor ()
      ensures Valid() && shown == [] && timers == {}
    {
      shown, nextId, timers := [], 0, {};
    }

    /** `showMessage(message, type)`: removes the current notification, adds
        a new element with its own hide timer, and returns that element's id. */
    method Show(m: Message, k: Kind) returns (id: nat)
      requires Valid()
      modifies this
      ensures Valid()
      ensures id == old(nextId) && id !in old(timers)
      ensures shown == AfterShow(old(shown), Notice(id, m, k))
      ensures shown == [Notice(id, m, k)]
      ensures timers == old(timers) + {id}
    {
      id := nextId;
      var n := Notice(id, m, k);
      ShowLeavesOnlyNew(shown, n);
      shown := AfterShow(shown, n);
      nextId := nextId + 1;
      timers := timers + {id};
    }

    /** The hide timer of element `id` fires: it removes that element if it
        is still attached, and nothing else. */
    method ExpireTimer(id: nat)
      requires Valid() && id in timers
      modifies this
      ensures Valid()
      ensures shown == Without(old(shown), id)
      ensures (forall x | x in old(shown) :: x.id != id) ==> shown == old(shown)
      ensures timers == old(timers) - {id} && nextId == old(nextId)
    {
      if forall x | x in shown :: x.id != id {
        StaleTimerHarmless(shown, id);
      }
      shown := Without(shown, id);
      timers := timers - {id};
    }
  }

  /** Two notifications in a row leave only the second; the first one's timer
      then leaves it in place, and the second one's timer removes it. */
  method ShowTwiceScenario() returns (afterBoth: seq<Notice>, afterStale: seq<Notice>, afterOwn: seq<Notice>)
    ensures |afterBoth| == 1 && afterBoth[0].message == AskEmail && afterBoth[0].kind == Error
    ensures afterStale == afterBoth
    ensures afterOwn == []
  {
    var p := new Presenter();
    var first := p.Show(Thanks("Olena"), Success);
    var second := p.Show(AskEmail, Error);
    afterBoth := p.shown;
    p.ExpireTimer(first);
    afterStale := p.shown;
    p.ExpireTimer(second);
    afterOwn := p.shown;
  }
}
