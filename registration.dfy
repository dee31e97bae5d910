/**
 What registering a list of callbacks means, independently of the loops of
 `NewHandler` that compute it: which handler each category ends up holding,
 and which intent bits are requested.
 */
module Registration {
  import opened EventTypes

  /** Element `x` of the callback list assigns the field of category `c`. */
  predicate Writes(x: Callback, c: Category)
  {
    x.Callback? && x.kind == c
  }

  /** Some element of `hs` is a callback of category `c` (possibly a nil one). */
  ghost predicate Registers(hs: seq<Callback>, c: Category)
  {
    exists k :: 0 <= k < |hs| && Writes(hs[k], c)
  }

  /**
   The value of the field of category `c` after assigning, in list order, every
   element of `hs` of that category to a field that held `before`.
   */
  function StoredAfter(hs: seq<Callback>, c: Category, before: Option<HandlerId>): Option<HandlerId>
  {
    if hs == [] then before
    else if Writes(hs[|hs| - 1], c) then hs[|hs| - 1].fn
    else StoredAfter(hs[..|hs| - 1], c, before)
  }

  /** The bits ORed into the intent by the loop `p` over the callbacks `hs`. */
  function PassIntent(toIntent: EventsToIntent, hs: seq<Callback>, p: Pass): Intent
  {
    if hs == [] then {}
    else
      var x := hs[|hs| - 1];
      PassIntent(toIntent, hs[..|hs| - 1], p)
        + (if x.Callback? && PassOf(x.kind) == p then Bits(toIntent, x.kind) else {})
  }

  /** Bit `b` belongs to the intent of some category that `hs` registers. */
  ghost predicate Requested(toIntent: EventsToIntent, hs: seq<Callback>, b: nat)
  {
    exists c :: Registers(hs, c) && b in Bits(toIntent, c)
  }

  /** One more element of the list: how the stored field and a loop's intent change. */
  lemma Step(toIntent: EventsToIntent, hs: seq<Callback>, k: nat, p: Pass)
    requires k < |hs|
    ensures forall c, d :: StoredAfter(hs[..k + 1], c, d)
                           == if Writes(hs[k], c) then hs[k].fn else StoredAfter(hs[..k], c, d)
    ensures PassIntent(toIntent, hs[..k + 1], p)
            == PassIntent(toIntent, hs[..k], p)
               + (if hs[k].Callback? && PassOf(hs[k].kind) == p then Bits(toIntent, hs[k].kind) else {})
  {
    var next := hs[..k + 1];
    assert next[..|next| - 1] == hs[..k] && next[|next| - 1] == hs[k];
    forall c, d
      ensures StoredAfter(next, c, d) == if Writes(hs[k], c) then hs[k].fn else StoredAfter(hs[..k], c, d)
    {
    }
  }

  /** Last writer wins: the field holds what the last callback of its category carried. */
  lemma {:induction false} LastWriterWins(hs: seq<Callback>, c: Category, before: Option<HandlerId>, k: nat)
    requires k < |hs| && Writes(hs[k], c)
    requires forall j :: k < j < |hs| ==> !Writes(hs[j], c)
    ensures StoredAfter(hs, c, before) == hs[k].fn
  {
    if k < |hs| - 1 {
      var init := hs[..|hs| - 1];
      assert forall j :: k < j < |init| ==> init[j] == hs[j];
      LastWriterWins(init, c, before, k);
    }
  }

  /** A category no callback belongs to keeps the value its field had. */
  lemma {:induction false} UnregisteredKeepsValue(hs: seq<Callback>, c: Category, before: Option<HandlerId>)
    requires !Registers(hs, c)
    ensures StoredAfter(hs, c, before) == before
  {
    if hs != [] {
      var init := hs[..|hs| - 1];
      assert !Writes(hs[|hs| - 1], c);
      forall k | 0 <= k < |init| ensures !Writes(init[k], c) {
        assert init[k] == hs[k];
      }
      UnregisteredKeepsValue(init, c, before);
    }
  }

  /** `Registers` on a list extended by one element. */
  lemma RegistersSnoc(hs: seq<Callback>, x: Callback, c: Category)
    ensures Registers(hs + [x], c) <==> Registers(hs, c) || Writes(x, c)
  {
    var ext := hs + [x];
    if Registers(hs, c) {
      var k :| 0 <= k < |hs| && Writes(hs[k], c);
      assert ext[k] == hs[k];
    }
    if Writes(x, c) {
      assert ext[|hs|] == x;
    }
    if Registers(ext, c) && !Writes(x, c) {
      var k :| 0 <= k < |ext| && Writes(ext[k], c);
      assert k < |hs| && ext[k] == hs[k];
    }
  }

  /**
   The intent ORed in by loop `p` is exactly the union of the bits of the
   categories of that loop which some element of `hs` registers.
   */
  lemma {:induction false} PassIntentIsRequested(toIntent: EventsToIntent, hs: seq<Callback>, p: Pass, b: nat)
    ensures b in PassIntent(toIntent, hs, p)
        <==> exists c :: PassOf(c) == p && Registers(hs, c) && b in Bits(toIntent, c)
  {
    if hs != [] {
      var init, x := hs[..|hs| - 1], hs[|hs| - 1];
      assert hs == init + [x];
      PassIntentIsRequested(toIntent, init, p, b);
      if b in PassIntent(toIntent, hs, p) {
        if b in PassIntent(toIntent, init, p) {
          var c :| PassOf(c) == p && Registers(init, c) && b in Bits(toIntent, c);
          RegistersSnoc(init, x, c);
        } else {
          RegistersSnoc(init, x, x.kind);
        }
      }
      if exists c :: PassOf(c) == p && Registers(hs, c) && b in Bits(toIntent, c) {
        var c :| PassOf(c) == p && Registers(hs, c) && b in Bits(toIntent, c);
        RegistersSnoc(init, x, c);
      }
    }
  }

  /**
   The four loops together request exactly the bits of the registered
   categories; Ready, ErrorNotify and Plain add none, since their `Bits` is empty.
   */
  lemma AllPassesRequest(toIntent: EventsToIntent, hs: seq<Callback>, b: nat)
    ensures b in PassIntent(toIntent, hs, NewHandlerPass) + PassIntent(toIntent, hs, RelationPass)
               + PassIntent(toIntent, hs, MessagePass) + PassIntent(toIntent, hs, ForumPass)
        <==> Requested(toIntent, hs, b)
  {
    PassIntentIsRequested(toIntent, hs, NewHandlerPass, b);
    PassIntentIsRequested(toIntent, hs, RelationPass, b);
    PassIntentIsRequested(toIntent, hs, MessagePass, b);
    PassIntentIsRequested(toIntent, hs, ForumPass, b);
    if Requested(toIntent, hs, b) {
      var c :| Registers(hs, c) && b in Bits(toIntent, c);
      assert PassOf(c) in {NewHandlerPass, RelationPass, MessagePass, ForumPass};
    }
  }

  /**
   An element that is not a handler is ignored: removing it changes neither
   any stored field nor the intent of any loop.
   */
  lemma {:induction false} NotAHandlerIsIgnored(toIntent: EventsToIntent, front: seq<Callback>, back: seq<Callback>,
                                                c: Category, before: Option<HandlerId>, p: Pass)
    ensures StoredAfter(front + [NotAHandler] + back, c, before) == StoredAfter(front + back, c, before)
    ensures PassIntent(toIntent, front + [NotAHandler] + back, p) == PassIntent(toIntent, front + back, p)
  {
    var with, without := front + [NotAHandler] + back, front + back;
    if back == [] {
      assert with[..|with| - 1] == without;
    } else {
      var init := back[..|back| - 1];
      assert with[..|with| - 1] == front + [NotAHandler] + init;
      assert without[..|without| - 1] == front + init;
      assert with[|with| - 1] == without[|without| - 1];
      NotAHandlerIsIgnored(toIntent, front, init, c, before, p);
    }
  }
}
