/** What holds of every alert in every run of the alert manager. */
module AlertLaws {
  import opened Basics
  import opened Rules
  import opened AlertManager

  // ------------------------------------------------------------------ the laws

  /** The records and the active alerts agree, and nothing lies in the future. */
  ghost predicate Booked(c: Core) {
    && (forall k | k in c.active :: BookedAs(c, k))
    && (forall i :: 0 <= i < |c.book| ==> (c.book[i].ended.None? <==> IsOpen(c, i)))
    && (forall i :: 0 <= i < |c.book| ==> Orderly(c.book[i], c.now))
  }

  ghost predicate BookedAs(c: Core, k: Key)
    requires k in c.active
  {
    var a := c.active[k];
    && a.id < |c.book|
    && var r := c.book[a.id];
       && r.key == k && r.fires != [] && r.fires[|r.fires| - 1].at == a.lastFired
       && (a.acknowledged <==> r.acknowledged.Some?)
  }

  /** Fires are in order, and an alert ends after its last one. */
  ghost predicate Orderly(r: Record, now: int) {
    && r.fires != [] && r.since <= r.fires[0].at
    && (forall j :: 0 <= j < |r.fires| ==> r.fires[0].at <= r.fires[j].at <= now)
    && (r.ended.Some? ==>
          r.ended.value.at <= now && forall j :: 0 <= j < |r.fires| ==> r.fires[j].at <= r.ended.value.at)
  }

  /** Between two fires of one alert lies at least the cooldown. */
  ghost predicate Spaced(cfg: Config, r: Record) {
    forall j :: 0 < j < |r.fires| ==> r.fires[j].at - r.fires[j - 1].at >= Cooldown(cfg, r.key.rule)
  }

  /** Exactly the fires before the acknowledgement notify and act. */
  ghost predicate Silenced(r: Record) {
    && (r.acknowledged.Some? ==> 1 <= r.acknowledged.value <= |r.fires|)
    && forall j :: 0 <= j < |r.fires| ==> (r.fires[j].notified <==> r.acknowledged.None? || j < r.acknowledged.value)
  }

  /** Alerts of a rule that suppresses repeats fire once. */
  ghost predicate Once(cfg: Config, r: Record) {
    var rule := FindRule(cfg.rules, r.key.rule);
    !Foreign(cfg, r.key.rule) && rule.Some? && rule.value.suppressRepeat ==> |r.fires| == 1
  }

  /** An alert of a rule with a window opens after a breach of that length in which the rule was never quiet. */
  ghost predicate Sustained(cfg: Config, r: Record, quiet: set<(Key, int)>) {
    var rule := FindRule(cfg.rules, r.key.rule);
    !Foreign(cfg, r.key.rule) && rule.Some? && Window(rule.value).Some? && r.fires != [] ==>
      && r.fires[0].at - r.since >= Window(rule.value).value
      && forall t :: (r.key, t) in quiet ==> t <= r.since || t >= r.fires[0].at
  }

  ghost predicate Lawful(cfg: Config, r: Record, quiet: set<(Key, int)>) {
    Spaced(cfg, r) && Silenced(r) && Once(cfg, r) && Sustained(cfg, r, quiet)
  }

  /** Of two alerts of one key the earlier is over before the later opens. */
  ghost predicate Apart(a: Record, b: Record) {
    a.key == b.key && b.fires != [] ==> a.ended.Some? && a.ended.value.at <= b.fires[0].at
  }

  /** After a manual resolution the key is left alone for the cooldown, unless the hold was lifted. */
  ghost predicate Respected(cfg: Config, c: Core, i: nat, j: nat)
    requires i < |c.book| && j < |c.book|
  {
    var a, b := c.book[i], c.book[j];
    a.key == b.key && a.key.rule != EDGE_OFFLINE && a.ended.Some? && a.ended.value.manual && b.fires != []
    && i !in c.lifted ==>
      b.fires[0].at >= a.ended.value.at + Cooldown(cfg, a.key.rule)
  }

  ghost predicate Pairs(cfg: Config, c: Core) {
    && (forall i, j :: 0 <= i < j < |c.book| ==> Apart(c.book[i], c.book[j]))
    && (forall i, j :: 0 <= i < j < |c.book| ==> Respected(cfg, c, i, j))
  }

  /** What keeps such a key closed: the hold, until the cooldown is over. */
  ghost predicate Held(cfg: Config, c: Core, i: nat)
    requires i < |c.book|
  {
    var r := c.book[i];
    r.ended.Some? && r.ended.value.manual && r.key.rule != EDGE_OFFLINE && i !in c.lifted ==>
      || c.now >= r.ended.value.at + Cooldown(cfg, r.key.rule)
      || (r.key in c.hold && c.hold[r.key] >= r.ended.value.at)
  }

  /** A breach that is going on began after the rule was last quiet. */
  ghost predicate Breaching(c: Core) {
    && (forall k | k in c.breach :: c.breach[k] <= c.now)
    && (forall k, t :: (k, t) in c.quiet ==> t <= c.now && (k in c.breach ==> t <= c.breach[k]))
  }

  /** No more active alerts of a rule than its cap. */
  ghost predicate Capped(cfg: Config, c: Core) {
    forall r | r in cfg.rules :: Foreign(cfg, r.rule.id) || FiringCount(c, r.rule.id) <= NonNegative(Cap(cfg, r))
  }

  ghost predicate Inv(cfg: Config, c: Core) {
    && Booked(c) && Breaching(c) && Capped(cfg, c) && Pairs(cfg, c)
    && (forall i :: 0 <= i < |c.book| ==> Lawful(cfg, c.book[i], c.quiet) && Held(cfg, c, i))
  }

  // ------------------------------------------------------------------ counting

  function Firing(c: Core, rule: string): set<Key> { set k | k in c.active && k.rule == rule }

  lemma CountAfterOpen(c: Core, d: Core, key: Key, rule: string)
    requires key !in c.active && d.active.Keys == c.active.Keys + {key}
    ensures FiringCount(d, rule) == FiringCount(c, rule) + if key.rule == rule then 1 else 0
  {
    assert Firing(d, rule) == Firing(c, rule) + if key.rule == rule then {key} else {};
  }

  lemma CountShrinks(c: Core, d: Core, rule: string)
    requires d.active.Keys <= c.active.Keys
    ensures FiringCount(d, rule) <= FiringCount(c, rule)
  {
    Subset(Firing(d, rule), Firing(c, rule));
  }

  lemma CapsShrink(cfg: Config, c: Core, d: Core)
    requires Capped(cfg, c) && d.active.Keys <= c.active.Keys
    ensures Capped(cfg, d)
  {
    forall r | r in cfg.rules && !Foreign(cfg, r.rule.id)
      ensures FiringCount(d, r.rule.id) <= NonNegative(Cap(cfg, r))
    {
      CountShrinks(c, d, r.rule.id);
    }
  }

  // ------------------------------------------------------------------ opening

  /** What must be so for an alert to open lawfully. */
  ghost predicate MayOpen(cfg: Config, c: Core, key: Key, since: int) {
    && key !in c.active && since <= c.now
    && (key.rule != EDGE_OFFLINE ==> !HoldIsOn(c, cfg, key))
    && (!Foreign(cfg, key.rule) ==> RoomFor(cfg, c, key.rule) && WindowOver(cfg, c, key, since))
  }

  ghost predicate RoomFor(cfg: Config, c: Core, rule: string) {
    forall r | r in cfg.rules && r.rule.id == rule :: FiringCount(c, rule) < Cap(cfg, r)
  }

  ghost predicate WindowOver(cfg: Config, c: Core, key: Key, since: int) {
    var rule := FindRule(cfg.rules, key.rule);
    rule.Some? && Window(rule.value).Some? ==>
      c.now - since >= Window(rule.value).value && forall t :: (key, t) in c.quiet ==> t <= since
  }

  lemma OpenKeepsActive(c: Core, key: Key, since: int)
    requires Booked(c) && key !in c.active
    ensures var d := Open(c, key, since); forall k | k in d.active :: BookedAs(d, k)
  {
    var d := Open(c, key, since);
    forall k | k in d.active
      ensures BookedAs(d, k)
    {
      assert k != key ==> BookedAs(c, k);
    }
  }

  lemma OpenKeepsRecords(c: Core, key: Key, since: int)
    requires Booked(c) && key !in c.active && since <= c.now
    ensures var d := Open(c, key, since);
            forall i :: 0 <= i < |d.book| ==> (d.book[i].ended.None? <==> IsOpen(d, i)) && Orderly(d.book[i], d.now)
  {
    var d := Open(c, key, since);
    forall i | 0 <= i < |d.book|
      ensures (d.book[i].ended.None? <==> IsOpen(d, i)) && Orderly(d.book[i], d.now)
    {
      if i < |c.book| {
        assert (c.book[i].ended.None? <==> IsOpen(c, i)) && Orderly(c.book[i], c.now);
        assert c.book[i].key == key ==> !IsOpen(c, i);
      }
    }
  }

  lemma OpenBooked(cfg: Config, c: Core, key: Key, since: int)
    requires Inv(cfg, c) && MayOpen(cfg, c, key, since)
    ensures Booked(Open(c, key, since)) && Breaching(Open(c, key, since))
  {
    OpenKeepsActive(c, key, since);
    OpenKeepsRecords(c, key, since);
  }

  lemma OpenCapped(cfg: Config, c: Core, key: Key, since: int)
    requires Inv(cfg, c) && MayOpen(cfg, c, key, since)
    ensures Capped(cfg, Open(c, key, since))
  {
    forall r | r in cfg.rules && !Foreign(cfg, r.rule.id)
      ensures FiringCount(Open(c, key, since), r.rule.id) <= NonNegative(Cap(cfg, r))
    {
      CountAfterOpen(c, Open(c, key, since), key, r.rule.id);
    }
  }

  lemma OpenPairs(cfg: Config, c: Core, key: Key, since: int)
    requires Inv(cfg, c) && MayOpen(cfg, c, key, since)
    ensures Pairs(cfg, Open(c, key, since))
  {
    var d := Open(c, key, since);
    forall i, j | 0 <= i < j < |d.book|
      ensures Apart(d.book[i], d.book[j]) && Respected(cfg, d, i, j)
    {
      if j < |c.book| {
        assert Apart(c.book[i], c.book[j]) && Respected(cfg, c, i, j);
      } else if c.book[i].key == key {
        assert !IsOpen(c, i) && c.book[i].ended.Some?;
        assert Orderly(c.book[i], c.now) && Held(cfg, c, i);
      }
    }
  }

  lemma OpenKeeps(cfg: Config, c: Core, key: Key, since: int)
    requires Inv(cfg, c) && MayOpen(cfg, c, key, since)
    ensures Inv(cfg, Open(c, key, since))
  {
    var d := Open(c, key, since);
    OpenBooked(cfg, c, key, since);
    OpenCapped(cfg, c, key, since);
    OpenPairs(cfg, c, key, since);
    forall i | 0 <= i < |d.book|
      ensures Lawful(cfg, d.book[i], d.quiet) && Held(cfg, d, i)
    {
      if i < |c.book| {
        assert Lawful(cfg, c.book[i], c.quiet) && Held(cfg, c, i);
      }
    }
  }

  // ------------------------------------------------------------------ the other changes to one alert

  /** Only bookkeeping outside the records has changed, and it still backs them. */
  lemma SameBookKeeps(cfg: Config, c: Core, d: Core)
    requires Inv(cfg, c) && Breaching(d)
    requires d.book == c.book && d.active == c.active && d.now >= c.now && c.lifted <= d.lifted
    requires forall k, t :: (k, t) in d.quiet ==> (k, t) in c.quiet || t == d.now
    requires forall i :: 0 <= i < |c.book| ==> Held(cfg, d, i)
    ensures Inv(cfg, d)
  {
    assert forall k | k in d.active :: BookedAs(c, k) ==> BookedAs(d, k);
    forall i | 0 <= i < |d.book|
      ensures (d.book[i].ended.None? <==> IsOpen(d, i)) && Orderly(d.book[i], d.now) && Lawful(cfg, d.book[i], d.quiet)
    {
      assert (c.book[i].ended.None? <==> IsOpen(c, i)) && Orderly(c.book[i], c.now) && Lawful(cfg, c.book[i], c.quiet);
    }
    forall i, j | 0 <= i < j < |d.book|
      ensures Apart(d.book[i], d.book[j]) && Respected(cfg, d, i, j)
    {
      assert Apart(c.book[i], c.book[j]) && Respected(cfg, c, i, j);
    }
    CapsShrink(cfg, c, d);
  }

  /** One open record has changed, without opening anew. */
  ghost predicate Rewritten(c: Core, d: Core, key: Key) {
    && key in c.active && c.active[key].id < |c.book|
    && var id := c.active[key].id;
    && |d.book| == |c.book| && d.active.Keys == c.active.Keys
    && (forall i :: 0 <= i < |c.book| && i != id ==> d.book[i] == c.book[i])
    && (forall k | k in c.active :: k != key ==> d.active[k] == c.active[k])
    && d.active[key].id == id
    && d.book[id].key == c.book[id].key && d.book[id].ended == c.book[id].ended && d.book[id].since == c.book[id].since
    && c.book[id].fires != [] && d.book[id].fires != [] && d.book[id].fires[0].at == c.book[id].fires[0].at
    && d.breach == c.breach && d.hold == c.hold && d.now == c.now && d.quiet == c.quiet && d.lifted == c.lifted
  }

  lemma RewrittenBooked(cfg: Config, c: Core, d: Core, key: Key)
    requires Inv(cfg, c) && Rewritten(c, d, key)
    requires BookedAs(d, key) && Orderly(d.book[d.active[key].id], d.now)
    ensures Booked(d)
  {
    assert BookedAs(c, key);
    forall k | k in d.active
      ensures BookedAs(d, k)
    {
      if k != key {
        assert BookedAs(c, k);
      }
    }
    RewrittenOpen(c, d, key);
  }

  lemma RewrittenOpen(c: Core, d: Core, key: Key)
    requires Booked(c) && Rewritten(c, d, key) && Orderly(d.book[d.active[key].id], d.now)
    ensures forall i :: 0 <= i < |d.book| ==> (d.book[i].ended.None? <==> IsOpen(d, i)) && Orderly(d.book[i], d.now)
  {
    forall i | 0 <= i < |d.book|
      ensures (d.book[i].ended.None? <==> IsOpen(d, i)) && Orderly(d.book[i], d.now)
    {
      assert (c.book[i].ended.None? <==> IsOpen(c, i)) && Orderly(c.book[i], c.now);
    }
  }

  lemma RewrittenPairs(cfg: Config, c: Core, d: Core, key: Key)
    requires Inv(cfg, c) && Rewritten(c, d, key)
    ensures Pairs(cfg, d)
  {
    forall i, j | 0 <= i < j < |d.book|
      ensures Apart(d.book[i], d.book[j]) && Respected(cfg, d, i, j)
    {
      assert Apart(c.book[i], c.book[j]) && Respected(cfg, c, i, j);
      assert Orderly(c.book[j], c.now);
    }
  }

  lemma RewrittenLawful(cfg: Config, c: Core, d: Core, key: Key)
    requires Inv(cfg, c) && Rewritten(c, d, key) && Lawful(cfg, d.book[d.active[key].id], d.quiet)
    ensures forall i :: 0 <= i < |d.book| ==> Lawful(cfg, d.book[i], d.quiet) && Held(cfg, d, i)
  {
    forall i | 0 <= i < |d.book|
      ensures Lawful(cfg, d.book[i], d.quiet) && Held(cfg, d, i)
    {
      assert Lawful(cfg, c.book[i], c.quiet) && Held(cfg, c, i);
    }
  }

  lemma RewrittenKeeps(cfg: Config, c: Core, d: Core, key: Key)
    requires Inv(cfg, c) && Rewritten(c, d, key)
    requires BookedAs(d, key)
    requires var r := d.book[d.active[key].id]; Orderly(r, d.now) && Lawful(cfg, r, d.quiet)
    ensures Inv(cfg, d)
  {
    RewrittenBooked(cfg, c, d, key);
    RewrittenPairs(cfg, c, d, key);
    RewrittenLawful(cfg, c, d, key);
    CapsShrink(cfg, c, d);
  }

  lemma TouchKeeps(cfg: Config, c: Core, key: Key)
    requires Inv(cfg, c) && key in c.active
    ensures Inv(cfg, Touch(c, key))
  {
    assert BookedAs(c, key);
    var id := c.active[key].id;
    assert Orderly(c.book[id], c.now) && Lawful(cfg, c.book[id], c.quiet);
    RewrittenKeeps(cfg, c, Touch(c, key), key);
  }

  lemma AcknowledgeRewrites(c: Core, key: Key)
    requires key in c.active && BookedAs(c, key)
    ensures var d := Acknowledge(c, key); Rewritten(c, d, key) && BookedAs(d, key)
    ensures var r, q := c.book[c.active[key].id], Acknowledge(c, key).book[c.active[key].id];
            q == if r.acknowledged.None? then r.(acknowledged := Some(|r.fires|)) else r
  {
  }

  lemma AcknowledgedRecord(cfg: Config, r: Record, now: int, quiet: set<(Key, int)>)
    requires Orderly(r, now) && Lawful(cfg, r, quiet)
    ensures var q := r.(acknowledged := Some(|r.fires|));
            r.acknowledged.None? ==> Orderly(q, now) && Lawful(cfg, q, quiet)
  {
  }

  lemma AcknowledgeKeeps(cfg: Config, c: Core, key: Key)
    requires Inv(cfg, c) && key in c.active
    ensures Inv(cfg, Acknowledge(c, key))
  {
    assert BookedAs(c, key);
    AcknowledgeRewrites(c, key);
    var r := c.book[c.active[key].id];
    assert Orderly(r, c.now) && Lawful(cfg, r, c.quiet);
    AcknowledgedRecord(cfg, r, c.now, c.quiet);
    RewrittenKeeps(cfg, c, Acknowledge(c, key), key);
  }

  predicate Suppressed(cfg: Config, rule: string) {
    var r := FindRule(cfg.rules, rule); r.Some? && r.value.suppressRepeat
  }

  /** What must be so for an alert to fire again lawfully. */
  ghost predicate MayRefire(cfg: Config, c: Core, key: Key) {
    && key in c.active
    && c.now - c.active[key].lastFired >= Cooldown(cfg, key.rule)
    && (!Foreign(cfg, key.rule) ==> !Suppressed(cfg, key.rule))
  }

  lemma RefiredRecord(cfg: Config, r: Record, now: int, quiet: set<(Key, int)>, fired: Fired)
    requires Orderly(r, now) && Lawful(cfg, r, quiet) && r.ended.None?
    requires fired == Fired(now, r.acknowledged.None?)
    requires now - r.fires[|r.fires| - 1].at >= Cooldown(cfg, r.key.rule)
    requires !Foreign(cfg, r.key.rule) ==> !Suppressed(cfg, r.key.rule)
    ensures var q := r.(fires := r.fires + [fired]); Orderly(q, now) && Lawful(cfg, q, quiet)
  {
  }

  lemma RefireRewrites(cfg: Config, c: Core, key: Key)
    requires Inv(cfg, c) && key in c.active
    ensures var d := Refire(c, key); Rewritten(c, d, key) && BookedAs(d, key)
    ensures var r := c.book[c.active[key].id];
            Refire(c, key).book[c.active[key].id] == r.(fires := r.fires + [Fired(c.now, r.acknowledged.None?)])
  {
    assert BookedAs(c, key);
  }

  lemma RefireKeeps(cfg: Config, c: Core, key: Key)
    requires Inv(cfg, c) && MayRefire(cfg, c, key)
    ensures Inv(cfg, Refire(c, key))
  {
    RefireRewrites(cfg, c, key);
    assert BookedAs(c, key);
    var id := c.active[key].id;
    assert c.book[id].ended.None? <==> IsOpen(c, id);
    assert Orderly(c.book[id], c.now) && Lawful(cfg, c.book[id], c.quiet);
    RefiredRecord(cfg, c.book[id], c.now, c.quiet, Fired(c.now, c.book[id].acknowledged.None?));
    RewrittenKeeps(cfg, c, Refire(c, key), key);
  }

  // ------------------------------------------------------------------ ending

  lemma EndBooked(cfg: Config, c: Core, doomed: set<Key>, manual: bool)
    requires Inv(cfg, c)
    ensures Booked(End(c, doomed, manual))
  {
    var d := End(c, doomed, manual);
    assert forall k | k in d.active :: BookedAs(c, k) ==> BookedAs(d, k);
    forall i | 0 <= i < |d.book|
      ensures (d.book[i].ended.None? <==> IsOpen(d, i)) && Orderly(d.book[i], d.now)
    {
      assert (c.book[i].ended.None? <==> IsOpen(c, i)) && Orderly(c.book[i], c.now);
    }
  }

  lemma EndPairs(cfg: Config, c: Core, doomed: set<Key>, manual: bool)
    requires Inv(cfg, c)
    ensures Pairs(cfg, End(c, doomed, manual))
  {
    var d := End(c, doomed, manual);
    forall i, j | 0 <= i < j < |d.book|
      ensures Apart(d.book[i], d.book[j]) && Respected(cfg, d, i, j)
    {
      assert Apart(c.book[i], c.book[j]) && Respected(cfg, c, i, j);
      assert c.book[i].ended.None? <==> IsOpen(c, i);
      assert Orderly(c.book[j], c.now);
    }
  }

  lemma EndKeeps(cfg: Config, c: Core, doomed: set<Key>, manual: bool)
    requires Inv(cfg, c)
    requires manual ==> forall k | k in doomed :: k.rule == EDGE_OFFLINE || (k in c.hold && c.hold[k] == c.now)
    ensures Inv(cfg, End(c, doomed, manual))
  {
    var d := End(c, doomed, manual);
    EndBooked(cfg, c, doomed, manual);
    EndPairs(cfg, c, doomed, manual);
    CapsShrink(cfg, c, d);
    forall i | 0 <= i < |d.book|
      ensures Lawful(cfg, d.book[i], d.quiet) && Held(cfg, d, i)
    {
      assert Lawful(cfg, c.book[i], c.quiet) && Held(cfg, c, i);
    }
  }

  // ------------------------------------------------------------------ breaches, holds and time

  lemma QuietKeeps(cfg: Config, c: Core, key: Key)
    requires Inv(cfg, c)
    ensures Inv(cfg, Quiet(c, key))
  {
    var d := Quiet(c, key);
    assert forall i :: 0 <= i < |c.book| ==> Held(cfg, c, i) ==> Held(cfg, d, i);
    SameBookKeeps(cfg, c, d);
  }

  lemma BreachKeeps(cfg: Config, c: Core, key: Key)
    requires Inv(cfg, c)
    ensures Inv(cfg, Breach(c, key))
  {
    var d := Breach(c, key);
    assert forall i :: 0 <= i < |c.book| ==> Held(cfg, c, i) ==> Held(cfg, d, i);
    SameBookKeeps(cfg, c, d);
  }

  lemma FewerBreachesKeep(cfg: Config, c: Core, d: Core)
    requires Inv(cfg, c) && d == c.(breach := d.breach)
    requires forall k | k in d.breach :: k in c.breach && d.breach[k] == c.breach[k]
    ensures Inv(cfg, d)
  {
    assert forall i :: 0 <= i < |c.book| ==> Held(cfg, c, i) ==> Held(cfg, d, i);
    SameBookKeeps(cfg, c, d);
  }

  lemma ElapseKeeps(cfg: Config, c: Core, d: Core)
    requires Inv(cfg, c) && d == c.(now := d.now) && d.now >= c.now
    ensures Inv(cfg, d)
  {
    assert forall i :: 0 <= i < |c.book| ==> Held(cfg, c, i) ==> Held(cfg, d, i);
    SameBookKeeps(cfg, c, d);
  }

  /** A hold that has run out may go. */
  lemma UnholdKeeps(cfg: Config, c: Core, key: Key)
    requires Inv(cfg, c) && !HoldIsOn(c, cfg, key)
    ensures Inv(cfg, c.(hold := c.hold - {key}))
  {
    var d := c.(hold := c.hold - {key});
    assert forall i :: 0 <= i < |c.book| ==> Held(cfg, c, i) ==> Held(cfg, d, i);
    SameBookKeeps(cfg, c, d);
  }

  lemma HoldKeeps(cfg: Config, c: Core, key: Key)
    requires Inv(cfg, c)
    ensures Inv(cfg, c.(hold := c.hold[key := c.now]))
  {
    var d := c.(hold := c.hold[key := c.now]);
    forall i | 0 <= i < |c.book|
      ensures Held(cfg, d, i)
    {
      assert Held(cfg, c, i) && Orderly(c.book[i], c.now);
    }
    SameBookKeeps(cfg, c, d);
  }

  lemma DropHoldsKeeps(cfg: Config, c: Core, dropped: set<Key>)
    requires Inv(cfg, c)
    ensures Inv(cfg, DropHolds(c, cfg, dropped))
  {
    var d := DropHolds(c, cfg, dropped);
    forall i | 0 <= i < |c.book|
      ensures Held(cfg, d, i)
    {
      assert Held(cfg, c, i);
      assert HeldUntil(c, cfg, i) > c.now <==> i in StillHeld(c, cfg);
    }
    SameBookKeeps(cfg, c, d);
  }

  // ------------------------------------------------------------------ rules and reports

  lemma Unique(rules: seq<ManagedRule>, r: ManagedRule)
    requires r in rules && forall i, j :: 0 <= i < j < |rules| ==> rules[i].rule.id != rules[j].rule.id
    ensures FindRule(rules, r.rule.id) == Some(r)
  {
    var found := FindRule(rules, r.rule.id);
    var i :| 0 <= i < |rules| && rules[i] == r;
    var j :| 0 <= j < |rules| && rules[j] == found.value;
  }

  lemma FireNowKeeps(cfg: Config, c: Core, r: ManagedRule, key: Key, since: int)
    requires Inv(cfg, c) && UniqueRules(cfg) && r in cfg.rules && key.rule == r.rule.id
    requires since <= c.now && WindowOver(cfg, c, key, since)
    ensures Inv(cfg, FireNow(c, cfg, r, key, since))
  {
    Unique(cfg.rules, r);
    if key in c.active {
      if r.suppressRepeat || c.now - c.active[key].lastFired < Cooldown(cfg, key.rule) {
        TouchKeeps(cfg, c, key);
      } else {
        RefireKeeps(cfg, c, key);
      }
    } else if !HoldIsOn(c, cfg, key) {
      UnholdKeeps(cfg, c, key);
      var h := c.(hold := c.hold - {key});
      if FiringCount(h, r.rule.id) < Cap(cfg, r) {
        forall q | q in cfg.rules && q.rule.id == key.rule
          ensures q == r
        {
          Unique(cfg.rules, q);
        }
        OpenKeeps(cfg, h, key, since);
      }
    }
  }

  lemma FireRuleKeeps(cfg: Config, c: Core, r: ManagedRule, key: Key)
    requires Inv(cfg, c) && UniqueRules(cfg) && r in cfg.rules && key.rule == r.rule.id
    ensures Inv(cfg, FireRule(c, cfg, r, key))
  {
    Unique(cfg.rules, r);
    if Window(r).None? {
      FireNowKeeps(cfg, c, r, key, c.now);
    } else {
      BreachKeeps(cfg, c, key);
      var b := Breach(c, key);
      if c.now - b.breach[key] >= Window(r).value {
        FireNowKeeps(cfg, b, r, key, b.breach[key]);
      }
    }
  }

  lemma EvaluateRuleKeeps(cfg: Config, c: Core, r: ManagedRule, ctx: Context, sweep: bool)
    requires Inv(cfg, c) && UniqueRules(cfg) && r in cfg.rules
    ensures Inv(cfg, EvaluateRule(c, cfg, r, ctx, sweep))
  {
    var key := Key(r.rule.id, ctx.edgeId, ctx.deviceId);
    QuietKeeps(cfg, c, key);
    EndKeeps(cfg, Quiet(c, key), {key}, false);
    FireRuleKeeps(cfg, c, r, key);
  }

  lemma {:induction false} EvaluateRulesKeeps(cfg: Config, c: Core, ctx: Context, sweep: bool, n: nat)
    requires Inv(cfg, c) && UniqueRules(cfg) && n <= |cfg.rules|
    ensures Inv(cfg, EvaluateRules(c, cfg, ctx, sweep, n))
  {
    if n > 0 {
      EvaluateRulesKeeps(cfg, c, ctx, sweep, n - 1);
      EvaluateRuleKeeps(cfg, EvaluateRules(c, cfg, ctx, sweep, n - 1), cfg.rules[n - 1], ctx, sweep);
    }
  }

  lemma ReportKeeps(cfg: Config, c: Core, key: Key)
    requires Inv(cfg, c) && Foreign(cfg, key.rule)
    ensures Inv(cfg, Report(c, cfg, key))
  {
    if key in c.active {
      if c.now - c.active[key].lastFired < Cooldown(cfg, key.rule) {
        TouchKeeps(cfg, c, key);
      } else {
        RefireKeeps(cfg, c, key);
      }
    } else if !HoldIsOn(c, cfg, key) {
      UnholdKeeps(cfg, c, key);
      OpenKeeps(cfg, c.(hold := c.hold - {key}), key, c.now);
    }
  }

  // ------------------------------------------------------------------ the manager's steps

  lemma SeenKeeps(cfg: Config, s: State, edge: string, at: int)
    requires Inv(cfg, s.core)
    ensures Inv(cfg, MarkEdgeSeen(s, edge, at).core)
  {
    EndKeeps(cfg, s.core, {Key(EDGE_OFFLINE, edge, "")}, false);
  }

  lemma StatusKeeps(cfg: Config, s: State, edge: string, device: string, status: HealthStatus,
                    metrics: map<string, MetricValue>)
    requires Inv(cfg, s.core) && UniqueRules(cfg)
    ensures Inv(cfg, OnStatus(s, cfg, edge, device, status, metrics).core)
  {
    SeenKeeps(cfg, s, edge, s.core.now);
    var seen := MarkEdgeSeen(s, edge, s.core.now).core;
    var ctx := ReportContext(s, edge, device, status, metrics);
    EvaluateRulesKeeps(cfg, seen, ctx, false, |cfg.rules|);
    var e := EvaluateRules(seen, cfg, ctx, false, |cfg.rules|);
    EndKeeps(cfg, e, ActiveWhere(e, edge, device, EDGE_PREFIX), false);
  }

  lemma ForgetKeeps(cfg: Config, s: State, gone: set<string>)
    requires Inv(cfg, s.core)
    ensures Inv(cfg, ForgetAll(s, cfg, gone).core)
  {
    var dropped := HoldsOf(s.core, gone);
    DropHoldsKeeps(cfg, s.core, dropped);
    FewerBreachesKeep(cfg, DropHolds(s.core, cfg, dropped), ForgetAll(s, cfg, gone).core);
  }

  lemma RemovedKeeps(cfg: Config, s: State, edge: string, device: string)
    requires Inv(cfg, s.core)
    ensures Inv(cfg, OnRemoved(s, cfg, edge, device).core)
  {
    ForgetKeeps(cfg, s, {device});
    var f := if device in s.devices && s.devices[device].edge != edge then s else ForgetAll(s, cfg, {device});
    EndKeeps(cfg, f.core, ActiveWhere(f.core, edge, device, ""), false);
  }

  lemma ResolveKeeps(cfg: Config, s: State, id: nat)
    requires Inv(cfg, s.core)
    ensures Inv(cfg, OnResolve(s, id).core)
  {
    if IsActiveId(s.core, id) {
      var key := s.core.book[id].key;
      if key.rule == EDGE_OFFLINE {
        EndKeeps(cfg, s.core, {key}, true);
      } else {
        HoldKeeps(cfg, s.core, key);
        EndKeeps(cfg, s.core.(hold := s.core.hold[key := s.core.now]), {key}, true);
      }
    }
  }

  lemma {:induction false} SessionsKeep(cfg: Config, s: State, sessions: seq<(string, int)>)
    requires Inv(cfg, s.core)
    ensures Inv(cfg, SeeSessions(s, cfg, sessions).core)
    decreases |sessions|
  {
    if sessions != [] {
      var edge, last := sessions[0].0, sessions[0].1;
      SeenKeeps(cfg, s, edge, last);
      var recent := cfg.edgeOfflineAfterSecs > 0 && s.core.now - last <= 1000 * cfg.edgeOfflineAfterSecs;
      SessionsKeep(cfg, if recent then MarkEdgeSeen(s, edge, last)
                        else s.(edges := s.edges[edge := Later(s.edges, edge, last)]), sessions[1..]);
    }
  }

  lemma {:induction false} SweepDevicesKeep(cfg: Config, s: State, order: seq<string>)
    requires Inv(cfg, s.core) && UniqueRules(cfg)
    ensures Inv(cfg, SweepDevices(s, cfg, order).core)
    decreases |order|
  {
    if order != [] {
      if order[0] in s.devices {
        EvaluateRulesKeeps(cfg, s.core, ContextOf(s, order[0]), true, |cfg.rules|);
        SweepDevicesKeep(cfg, s.(core := EvaluateRules(s.core, cfg, ContextOf(s, order[0]), true, |cfg.rules|)),
                         order[1..]);
      } else {
        SweepDevicesKeep(cfg, s, order[1..]);
      }
    }
  }

  lemma {:induction false} OfflineKeeps(cfg: Config, s: State, order: seq<string>)
    requires Inv(cfg, s.core)
    ensures Inv(cfg, OpenOffline(s, cfg, order).core)
    decreases |order|
  {
    if order != [] {
      var key := Key(EDGE_OFFLINE, order[0], "");
      if IsSilent(s, cfg, order[0]) && order[0] !in s.latched && key !in s.core.active {
        OpenKeeps(cfg, s.core, key, s.core.now);
        OfflineKeeps(cfg, s.(core := Open(s.core, key, s.core.now)), order[1..]);
      } else {
        OfflineKeeps(cfg, s, order[1..]);
      }
    }
  }

  lemma PruneKeeps(cfg: Config, s: State)
    requires Inv(cfg, s.core)
    ensures Inv(cfg, Prune(s, cfg).core)
  {
    var dropped := OldHolds(s.core, cfg);
    DropHoldsKeeps(cfg, s.core, dropped);
    FewerBreachesKeep(cfg, DropHolds(s.core, cfg, dropped), Prune(s, cfg).core);
  }

  lemma BeforeOfflineKeeps(cfg: Config, s: State, sessions: seq<(string, int)>, deviceOrder: seq<string>)
    requires Inv(cfg, s.core) && UniqueRules(cfg)
    ensures Inv(cfg, BeforeOffline(s, cfg, sessions, deviceOrder).core)
  {
    SessionsKeep(cfg, s, sessions);
    SweepDevicesKeep(cfg, SeeSessions(s, cfg, sessions), deviceOrder);
    var e := ExpirePredictions(SweepDevices(SeeSessions(s, cfg, sessions), cfg, deviceOrder), cfg);
    EndKeeps(cfg, e.core, Expired(e.core, cfg), false);
  }

  lemma SweepKeeps(cfg: Config, s: State, sessions: seq<(string, int)>, deviceOrder: seq<string>,
                   edgeOrder: seq<string>)
    requires Inv(cfg, s.core) && UniqueRules(cfg)
    ensures Inv(cfg, OnSweep(s, cfg, sessions, deviceOrder, edgeOrder).core)
  {
    BeforeOfflineKeeps(cfg, s, sessions, deviceOrder);
    var b := BeforeOffline(s, cfg, sessions, deviceOrder);
    OfflineKeeps(cfg, b, edgeOrder);
    var o := OpenOffline(b, cfg, edgeOrder);
    ForgetKeeps(cfg, o, Stale(o, cfg));
    PruneKeeps(cfg, ForgetAll(o, cfg, Stale(o, cfg)));
  }

  lemma ReportsKeep(cfg: Config, s: State, e: Event)
    requires Inv(cfg, s.core) && UniqueRules(cfg)
    requires e.StatusReport? || e.EdgeAlert? || e.PredictionReport?
    ensures Inv(cfg, Step(cfg, s, e).core)
  {
    match e
    case StatusReport(edge, device, status, metrics) => StatusKeeps(cfg, s, edge, device, status, metrics);
    case EdgeAlert(edge, device, metric) =>
      ReportKeeps(cfg, s.core, Key(EDGE_PREFIX + if metric.Some? then metric.value else "device-alert", edge, device));
    case PredictionReport(edge, device, info) =>
      if info.probability.Finite? && !Below(info.probability, cfg.predictionThreshold) {
        ReportKeeps(cfg, s.core, Key(PREDICTION_PREFIX + info.predictionType, edge, device));
      }
  }

  lemma OperatorKeeps(cfg: Config, s: State, e: Event)
    requires Inv(cfg, s.core)
    requires e.AcknowledgeAlert? || e.ResolveAlert?
    ensures Inv(cfg, Step(cfg, s, e).core)
  {
    if e.AcknowledgeAlert? {
      if IsActiveId(s.core, e.id) {
        AcknowledgeKeeps(cfg, s.core, s.core.book[e.id].key);
      }
    } else {
      ResolveKeeps(cfg, s, e.id);
    }
  }

  lemma StepKeepsInv(cfg: Config, s: State, e: Event)
    requires Inv(cfg, s.core) && UniqueRules(cfg)
    ensures Inv(cfg, Step(cfg, s, e).core)
  {
    if e.StatusReport? || e.EdgeAlert? || e.PredictionReport? {
      ReportsKeep(cfg, s, e);
    } else if e.AcknowledgeAlert? || e.ResolveAlert? {
      OperatorKeeps(cfg, s, e);
    } else {
      OthersKeep(cfg, s, e);
    }
  }

  lemma SweepStepKeeps(cfg: Config, s: State, e: Event)
    requires Inv(cfg, s.core) && UniqueRules(cfg) && e.RunSweep?
    ensures Inv(cfg, Step(cfg, s, e).core)
  {
    SweepKeeps(cfg, s, e.sessions, e.deviceOrder, e.edgeOrder);
  }

  lemma RemovalStepKeeps(cfg: Config, s: State, e: Event)
    requires Inv(cfg, s.core) && e.DeviceRemoved?
    ensures Inv(cfg, Step(cfg, s, e).core)
  {
    RemovedKeeps(cfg, s, e.edge, e.device);
  }

  lemma EdgeStepKeeps(cfg: Config, s: State, e: Event)
    requires Inv(cfg, s.core) && (e.EdgeSeen? || e.EdgeDisconnected?)
    ensures Inv(cfg, Step(cfg, s, e).core)
  {
    if e.EdgeSeen? {
      SeenKeeps(cfg, s, e.edge, s.core.now);
    }
  }

  lemma ElapseStepKeeps(cfg: Config, s: State, e: Event)
    requires Inv(cfg, s.core) && e.Elapse?
    ensures Inv(cfg, Step(cfg, s, e).core)
  {
    ElapseKeeps(cfg, s.core, Step(cfg, s, e).core);
  }

  lemma OthersKeep(cfg: Config, s: State, e: Event)
    requires Inv(cfg, s.core) && UniqueRules(cfg)
    requires e.Elapse? || e.EdgeSeen? || e.EdgeDisconnected? || e.DeviceRemoved? || e.RunSweep?
    ensures Inv(cfg, Step(cfg, s, e).core)
  {
    if e.RunSweep? {
      SweepStepKeeps(cfg, s, e);
    } else if e.DeviceRemoved? {
      RemovalStepKeeps(cfg, s, e);
    } else if e.Elapse? {
      ElapseStepKeeps(cfg, s, e);
    } else {
      EdgeStepKeeps(cfg, s, e);
    }
  }

  lemma {:induction false} RunInv(cfg: Config, now: int, events: seq<Event>)
    requires UniqueRules(cfg)
    ensures Inv(cfg, Run(cfg, now, events).core)
  {
    if events == [] {
      assert forall rule :: FiringCount(Init(now).core, rule) == 0 by {
        assert forall rule :: Firing(Init(now).core, rule) == {};
      }
    } else {
      RunInv(cfg, now, events[..|events| - 1]);
      StepKeepsInv(cfg, Run(cfg, now, events[..|events| - 1]), events[|events| - 1]);
    }
  }
}
