/**
  Enumerating devices for an external application (boot/rpi/api/api.c, boot/rpi/api/api_storage.c):
  every call hands back the cookie of the last one and gets the next device.
 */
module Enumeration {

  /** What blk_get_dev finds in a slot: nothing, or a device that is active or not. */
  datatype Slot = Absent | Inactive | Active

  /** One storage group; one that is not configured has no name and no slots. */
  datatype Group = Group(configured: bool, slots: seq<Slot>)

  datatype Cookie = Null | Net | Stor(group: nat, index: nat)

  predicate GroupsOk(env: seq<Group>) {
    forall g :: 0 <= g < |env| && !env[g].configured ==> env[g].slots == []
  }

  /** enum_started and enum_ended of every group, and the cookie. */
  datatype State = State(started: seq<bool>, ended: seq<bool>, cookie: Cookie)

  predicate StateOk(env: seq<Group>, st: State) {
    |st.started| == |st.ended| == |env|
  }

  /** The cookie names a slot that holds a device. */
  predicate Names(env: seq<Group>, c: Cookie) {
    c.Stor? && c.group < |env| && c.index < |env[c.group].slots| && env[c.group].slots[c.index] != Absent
  }

  predicate CookieOk(env: seq<Group>, c: Cookie) {
    c.Stor? ==> Names(env, c)
  }

  // ---------------------------------------------------------------- the operations

  /** The first slot from `i` on that holds a device. */
  function FirstFrom(slots: seq<Slot>, i: nat): (r: nat)
    requires i <= |slots|
    ensures i <= r <= |slots| && (r < |slots| ==> slots[r] != Absent)
    ensures forall k :: i <= k < r ==> slots[k] == Absent
    decreases |slots| - i
  {
    if i == |slots| || slots[i] != Absent then i else FirstFrom(slots, i + 1)
  }

  /** Where the search in a group goes on: at its start, behind the cookie's device, or at its end. */
  function SearchFrom(env: seq<Group>, g: nat, c: Cookie): (r: nat)
    requires g < |env| && CookieOk(env, c)
    ensures r <= |env[g].slots|
  {
    if c.Null? then 0
    else if c.Stor? && c.group == g then c.index + 1
    else |env[g].slots|
  }

  /** dev_stor_get: whether a device was found, whether there may be more, and the cookie. */
  function StorGet(env: seq<Group>, g: nat, c: Cookie): (r: (bool, bool, Cookie))
    requires g < |env| && CookieOk(env, c)
    ensures CookieOk(env, r.2)
  {
    var slots := env[g].slots;
    if !env[g].configured then (false, false, c)
    else
      var i := FirstFrom(slots, SearchFrom(env, g, c));
      if i == |slots| then (false, false, Null)
      else (slots[i] == Active, true, Stor(g, i))
  }

  /** dev_enum_stor */
  function EnumStor(env: seq<Group>, st: State, g: nat): (r: (bool, State))
    requires g < |env| && StateOk(env, st) && CookieOk(env, st.cookie)
    ensures StateOk(env, r.1) && CookieOk(env, r.1.cookie)
  {
    if !st.cookie.Null? && st.ended[g] then (false, st)
    else if st.cookie.Null? || (st.cookie.Stor? && st.cookie.group == g) || !st.started[g] then
      var (found, more, c) := StorGet(env, g, st.cookie);
      var started := if st.cookie.Stor? && st.cookie.group == g then st.started else st.started[g := true];
      (found, State(started, st.ended[g := !more], c))
    else (false, st.(ended := st.ended[g := true]))
  }

  /** dev_enum_storage, from group `g` on. */
  function EnumStorage(env: seq<Group>, st: State, g: nat): (r: (bool, State))
    requires g <= |env| && StateOk(env, st) && CookieOk(env, st.cookie)
    ensures StateOk(env, r.1) && CookieOk(env, r.1.cookie)
    decreases |env| - g
  {
    if g == |env| then (false, st)
    else
      var (found, st1) := EnumStor(env, st, g);
      if found then (true, st1) else EnumStorage(env, st1, g + 1)
  }

  function AllFalse(n: nat): seq<bool> {
    seq(n, _ => false)
  }

  /** API_dev_enum; `net` tells whether there is a network device. */
  function DevEnum(env: seq<Group>, net: bool, st: State): (r: State)
    requires StateOk(env, st) && CookieOk(env, st.cookie)
    ensures StateOk(env, r) && CookieOk(env, r.cookie)
  {
    if st.cookie.Null? && net then State(AllFalse(|env|), AllFalse(|env|), Net)
    else
      var st0 := if st.cookie.Null? then State(AllFalse(|env|), AllFalse(|env|), Null) else st;
      var (found, st1) := EnumStorage(env, st0, 0);
      if found then st1 else st1.(cookie := Null)
  }

  /** The state after `k` calls, each with the cookie of the one before. */
  function After(env: seq<Group>, net: bool, st: State, k: nat): (r: State)
    requires StateOk(env, st) && CookieOk(env, st.cookie)
    ensures StateOk(env, r) && CookieOk(env, r.cookie)
    decreases k
  {
    if k == 0 then st else After(env, net, DevEnum(env, net, st), k - 1)
  }

  // ---------------------------------------------------------------- what the calls return

  /**
    The devices still to come from slot `i` of group `g` on.  `open`: the search enters with no
    cookie or with one of this group; otherwise it enters with the cookie of another device, and a
    configured group entered like that yields nothing.
   */
  function Yield(env: seq<Group>, g: nat, i: nat, open: bool): seq<Cookie>
    requires g <= |env| && (g < |env| ==> i <= |env[g].slots|)
    decreases |env| - g, if g < |env| then |env[g].slots| - i else 0
  {
    if g == |env| then []
    else if !open then Yield(env, g + 1, 0, env[g].configured)
    else
      var n := FirstFrom(env[g].slots, i);
      if n == |env[g].slots| then Yield(env, g + 1, 0, true)
      else if env[g].slots[n] == Active then [Stor(g, n)] + Yield(env, g, n + 1, true)
      else Yield(env, g + 1, 0, false)
  }

  function Expected(env: seq<Group>, net: bool): seq<Cookie> {
    if net then [Net] + Yield(env, 0, 0, false) else Yield(env, 0, 0, true)
  }

  /** Between two calls: the groups up to that of the cookie have been entered, the others have not. */
  predicate Resting(env: seq<Group>, st: State)
    requires StateOk(env, st)
  {
    && Names(env, st.cookie)
    && !st.ended[st.cookie.group]
    && (forall j :: 0 <= j <= st.cookie.group ==> st.started[j])
    && (forall j :: st.cookie.group < j < |env| ==> !st.started[j] && !st.ended[j])
  }

  /** The groups from `g` on have not been entered. */
  predicate Untouched(env: seq<Group>, st: State, g: nat)
    requires StateOk(env, st)
  {
    && (forall j :: 0 <= j < g && j < |env| ==> st.started[j])
    && (forall j :: g <= j < |env| ==> !st.started[j] && !st.ended[j])
  }

  /** What a call returns against what was still to come. */
  predicate Delivers(env: seq<Group>, r: (bool, State), coming: seq<Cookie>)
    requires StateOk(env, r.1)
  {
    if coming == [] then !r.0
    else
      && r.0 && r.1.cookie == coming[0] && Resting(env, r.1)
      && coming[1..] == Yield(env, r.1.cookie.group, r.1.cookie.index + 1, true)
  }

  // ---------------------------------------------------------------- one call

  /** The cookie with which a group that has not been entered is entered. */
  predicate EntersWith(c: Cookie, g: nat, open: bool) {
    if open then c.Null? else c.Net? || (c.Stor? && c.group < g)
  }

  lemma EnterGroup(env: seq<Group>, st: State, g: nat, open: bool)
    requires GroupsOk(env) && StateOk(env, st) && CookieOk(env, st.cookie)
    requires g < |env| && Untouched(env, st, g) && EntersWith(st.cookie, g, open)
    ensures var (found, st1) := EnumStor(env, st, g);
            if !open then !found && Untouched(env, st1, g + 1) && EntersWith(st1.cookie, g + 1, env[g].configured)
            else
              var n := FirstFrom(env[g].slots, 0);
              if n == |env[g].slots| then !found && Untouched(env, st1, g + 1) && EntersWith(st1.cookie, g + 1, true)
              else if env[g].slots[n] == Active then found && st1.cookie == Stor(g, n) && Resting(env, st1)
              else !found && Untouched(env, st1, g + 1) && EntersWith(st1.cookie, g + 1, false)
  {
  }

  /** Entering the groups from `g` on for the first time. */
  lemma {:induction false} EnterGroups(env: seq<Group>, st: State, g: nat, open: bool)
    requires GroupsOk(env) && StateOk(env, st) && CookieOk(env, st.cookie)
    requires g <= |env| && Untouched(env, st, g) && EntersWith(st.cookie, g, open)
    ensures Delivers(env, EnumStorage(env, st, g), Yield(env, g, 0, open))
    decreases |env| - g
  {
    hide EnumStor, Untouched, EntersWith, Resting, GroupsOk, Names;
    if g < |env| {
      EnterGroup(env, st, g, open);
      var (found, st1) := EnumStor(env, st, g);
      if !found {
        var next := if !open then env[g].configured else FirstFrom(env[g].slots, 0) == |env[g].slots|;
        EnterGroups(env, st1, g + 1, next);
      }
    }
  }

  lemma PassGroup(env: seq<Group>, st: State, j: nat)
    requires StateOk(env, st) && Resting(env, st) && j < st.cookie.group
    ensures var (found, st1) := EnumStor(env, st, j);
            !found && st1.cookie == st.cookie && Resting(env, st1)
  {
  }

  lemma ContinueGroup(env: seq<Group>, st: State)
    requires GroupsOk(env) && StateOk(env, st) && Resting(env, st)
    ensures var g := st.cookie.group;
            var (found, st1) := EnumStor(env, st, g);
            var n := FirstFrom(env[g].slots, st.cookie.index + 1);
            if n == |env[g].slots| then !found && Untouched(env, st1, g + 1) && EntersWith(st1.cookie, g + 1, true)
            else if env[g].slots[n] == Active then found && st1.cookie == Stor(g, n) && Resting(env, st1)
            else !found && Untouched(env, st1, g + 1) && EntersWith(st1.cookie, g + 1, false)
  {
  }

  lemma {:induction false} YieldStep(env: seq<Group>, g: nat, i: nat)
    requires g < |env| && i <= |env[g].slots|
    ensures var n := FirstFrom(env[g].slots, i);
            Yield(env, g, i, true)
            == if n == |env[g].slots| then Yield(env, g + 1, 0, true)
               else if env[g].slots[n] == Active then [Stor(g, n)] + Yield(env, g, n + 1, true)
               else Yield(env, g + 1, 0, false)
  {
  }

  lemma {:induction false} StorageStep(env: seq<Group>, st: State, g: nat)
    requires g < |env| && StateOk(env, st) && CookieOk(env, st.cookie)
    ensures var (found, st1) := EnumStor(env, st, g);
            EnumStorage(env, st, g) == if found then (true, st1) else EnumStorage(env, st1, g + 1)
  {
    hide EnumStor;
  }

  /** Going on from the device returned last, from group `j` on. */
  lemma {:induction false} Continue(env: seq<Group>, st: State, j: nat)
    requires GroupsOk(env) && StateOk(env, st) && Resting(env, st) && j <= st.cookie.group
    ensures Delivers(env, EnumStorage(env, st, j), Yield(env, st.cookie.group, st.cookie.index + 1, true))
    decreases st.cookie.group - j
  {
    hide EnumStor, EnumStorage, Yield, Untouched, EntersWith, Resting, GroupsOk, FirstFrom;
    RestingNames(env, st);
    StorageStep(env, st, j);
    if j < st.cookie.group {
      PassGroup(env, st, j);
      Continue(env, EnumStor(env, st, j).1, j + 1);
    } else {
      ContinueGroup(env, st);
      YieldStep(env, j, st.cookie.index + 1);
      var (found, st1) := EnumStor(env, st, j);
      var n := FirstFrom(env[j].slots, st.cookie.index + 1);
      if found {
        var rest := Yield(env, j, n + 1, true);
        assert ([Stor(j, n)] + rest)[1..] == rest;
      } else {
        EnterGroups(env, st1, j + 1, n == |env[j].slots|);
      }
    }
  }

  lemma RestingNames(env: seq<Group>, st: State)
    requires StateOk(env, st) && Resting(env, st)
    ensures Names(env, st.cookie)
  {
  }

  // ---------------------------------------------------------------- the whole run

  /** From a device on: call after call returns what is still to come, then nothing. */
  lemma {:induction false} RunFrom(env: seq<Group>, net: bool, st: State, k: nat)
    requires GroupsOk(env) && StateOk(env, st) && Resting(env, st)
    ensures var coming := Yield(env, st.cookie.group, st.cookie.index + 1, true);
            k <= |coming| ==> After(env, net, st, k + 1).cookie == if k < |coming| then coming[k] else Null
    decreases k
  {
    RestingNames(env, st);
    Continue(env, st, 0);
    hide Resting, GroupsOk, Yield, EnumStorage, Names;
    var coming := Yield(env, st.cookie.group, st.cookie.index + 1, true);
    var st1 := DevEnum(env, net, st);
    if k <= |coming| {
      AfterStep(env, net, st, k);
      if 0 < k {
        assert coming[k..] == coming[1..][k - 1..];
        RunFrom(env, net, st1, k - 1);
      } else {
        AfterNone(env, net, st1);
      }
    }
  }

  lemma AfterStep(env: seq<Group>, net: bool, st: State, k: nat)
    requires StateOk(env, st) && CookieOk(env, st.cookie)
    ensures After(env, net, st, k + 1) == After(env, net, DevEnum(env, net, st), k)
  {
  }

  lemma AfterNone(env: seq<Group>, net: bool, st: State)
    requires StateOk(env, st) && CookieOk(env, st.cookie)
    ensures After(env, net, st, 0) == st
  {
  }

  /** With a cookie that is not a storage device: the groups are entered for the first time. */
  lemma RunStart(env: seq<Group>, net: bool, st: State, k: nat, open: bool)
    requires GroupsOk(env) && StateOk(env, st) && Untouched(env, st, 0)
    requires if open then st.cookie.Null? else st.cookie.Net?
    ensures var coming := Yield(env, 0, 0, open);
            var r := EnumStorage(env, st, 0);
            var st1 := if r.0 then r.1 else r.1.(cookie := Null);
            k <= |coming| ==> After(env, net, st1, k).cookie == if k < |coming| then coming[k] else Null
  {
    EnterGroups(env, st, 0, open);
    hide GroupsOk, Yield, EnumStorage, Names, Resting, Untouched;
    var coming := Yield(env, 0, 0, open);
    var r := EnumStorage(env, st, 0);
    var st1 := if r.0 then r.1 else r.1.(cookie := Null);
    if k <= |coming| {
      if 0 < k {
        assert coming[k..] == coming[1..][k - 1..];
        RestingNames(env, st1);
        RunFrom(env, net, st1, k - 1);
      } else {
        AfterNone(env, net, st1);
      }
    }
  }

  /**
    A run that starts with no cookie returns exactly the expected devices, one per call and in
    order, and then reports that there are no more.
   */
  lemma RunIs(env: seq<Group>, net: bool, st: State, k: nat)
    requires GroupsOk(env) && StateOk(env, st) && st.cookie.Null?
    ensures k < |Expected(env, net)| ==> After(env, net, st, k + 1).cookie == Expected(env, net)[k]
    ensures k == |Expected(env, net)| ==> After(env, net, st, k + 1).cookie == Null
  {
    hide Yield, EnumStorage, GroupsOk;
    AfterStep(env, net, st, k);
    var reset := State(AllFalse(|env|), AllFalse(|env|), Null);
    if !net {
      RunStart(env, net, reset, k, true);
    } else if k <= |Expected(env, net)| {
      var first := reset.(cookie := Net);
      if k == 0 {
        AfterNone(env, net, first);
      } else {
        AfterStep(env, net, first, k - 1);
        RunStart(env, net, first, k - 1, false);
      }
    }
  }

  // ---------------------------------------------------------------- order, repeats, completeness

  predicate Precedes(a: Cookie, b: Cookie) {
    b.Stor? && (a.Net? || (a.Stor? && (a.group < b.group || (a.group == b.group && a.index < b.index))))
  }

  predicate Increasing(s: seq<Cookie>) {
    forall k, l :: 0 <= k < l < |s| ==> Precedes(s[k], s[l])
  }

  /** Active devices from slot `i` of group `g` on. */
  predicate ActiveFrom(env: seq<Group>, c: Cookie, g: nat, i: nat) {
    Names(env, c) && env[c.group].slots[c.index] == Active && (g < c.group || (g == c.group && i <= c.index))
  }

  predicate AllFrom(env: seq<Group>, s: seq<Cookie>, g: nat, i: nat) {
    forall k :: 0 <= k < |s| ==> ActiveFrom(env, s[k], g, i)
  }

  lemma {:induction false} ConsIncreasing(env: seq<Group>, rest: seq<Cookie>, g: nat, i: nat, n: nat)
    requires i <= n && ActiveFrom(env, Stor(g, n), g, i) && Increasing(rest) && AllFrom(env, rest, g, n + 1)
    ensures Increasing([Stor(g, n)] + rest) && AllFrom(env, [Stor(g, n)] + rest, g, i)
  {
  }

  lemma {:induction false} LaterFrom(env: seq<Group>, s: seq<Cookie>, g: nat, i: nat)
    requires AllFrom(env, s, g + 1, 0)
    ensures AllFrom(env, s, g, i)
  {
    hide Names;
  }

  lemma {:induction false} YieldIncreasing(env: seq<Group>, g: nat, i: nat, open: bool)
    requires g <= |env| && (g < |env| ==> i <= |env[g].slots|)
    ensures Increasing(Yield(env, g, i, open)) && AllFrom(env, Yield(env, g, i, open), g, i)
    decreases |env| - g, if g < |env| then |env[g].slots| - i else 0
  {
    hide Increasing, AllFrom;
    if g == |env| {
      NothingIncreasing(env, g, i);
    } else if !open {
      YieldIncreasing(env, g + 1, 0, env[g].configured);
      LaterFrom(env, Yield(env, g + 1, 0, env[g].configured), g, i);
    } else {
      var n := FirstFrom(env[g].slots, i);
      if n < |env[g].slots| && env[g].slots[n] == Active {
        YieldIncreasing(env, g, n + 1, true);
        ConsIncreasing(env, Yield(env, g, n + 1, true), g, i, n);
      } else {
        YieldIncreasing(env, g + 1, 0, n == |env[g].slots|);
        LaterFrom(env, Yield(env, g + 1, 0, n == |env[g].slots|), g, i);
      }
    }
  }

  lemma {:induction false} NothingIncreasing(env: seq<Group>, g: nat, i: nat)
    ensures Increasing([]) && AllFrom(env, [], g, i)
  {
  }

  /** The devices come in strictly increasing order of group and index, so none comes twice and the run ends. */
  lemma ExpectedIncreasing(env: seq<Group>, net: bool)
    ensures Increasing(Expected(env, net))
    ensures forall k :: 0 <= k < |Expected(env, net)| && !Expected(env, net)[k].Net? ==>
            ActiveFrom(env, Expected(env, net)[k], 0, 0)
  {
    YieldIncreasing(env, 0, 0, !net);
    hide Yield;
  }

  // ---------------------------------------------------------------- which devices a run returns

  /** No inactive device in the slots from `i` to `j`. */
  predicate NoInactive(slots: seq<Slot>, i: nat, j: nat) {
    forall k :: i <= k < j && k < |slots| ==> slots[k] != Inactive
  }

  /**
    Group `g` is entered open.  The first group is, unless there is a network device.  Behind a
    group entered open the next one is, unless that group holds an inactive device; behind a group
    entered closed it is, if that group is configured.
   */
  predicate OpenAt(env: seq<Group>, net: bool, g: nat)
    requires g <= |env|
  {
    if g == 0 then !net else OpenBehind(env[g - 1], 0, OpenAt(env, net, g - 1))
  }

  predicate OpenBehind(group: Group, i: nat, open: bool) {
    if open then NoInactive(group.slots, i, |group.slots|) else group.configured
  }

  /** The same, looking ahead from slot `i` of group `g`. */
  predicate OpenFrom(env: seq<Group>, g: nat, i: nat, open: bool, h: nat)
    requires g <= h <= |env|
    decreases h - g
  {
    if h == g then open else OpenFrom(env, g + 1, 0, OpenBehind(env[g], i, open), h)
  }

  lemma {:induction false} LookingAhead(env: seq<Group>, net: bool, g: nat, h: nat)
    requires g <= h <= |env|
    ensures OpenFrom(env, g, 0, OpenAt(env, net, g), h) == OpenAt(env, net, h)
    decreases h - g
  {
    hide OpenBehind;
    if g < h {
      LookingAhead(env, net, g + 1, h);
    }
  }

  /** What the search at slot `i` of group `g` will return, device by device. */
  predicate Reached(env: seq<Group>, g: nat, i: nat, open: bool, h: nat, j: nat)
    requires g <= h < |env|
  {
    && j < |env[h].slots| && env[h].slots[j] == Active
    && OpenFrom(env, g, i, open, h)
    && (if h == g then i <= j && NoInactive(env[h].slots, i, j) else NoInactive(env[h].slots, 0, j))
  }

  lemma {:induction false} NotBefore(env: seq<Group>, g: nat, i: nat, open: bool, h: nat, j: nat)
    requires g <= |env| && (g < |env| ==> i <= |env[g].slots|) && (h < g || (h == g && j < i))
    ensures Stor(h, j) !in Yield(env, g, i, open)
  {
    YieldIncreasing(env, g, i, open);
    hide Yield;
  }

  /** Passing slots that are empty or active changes nothing for what lies behind. */
  lemma {:induction false} PassSlots(env: seq<Group>, g: nat, i: nat, n: nat, h: nat, j: nat)
    requires g < |env| && i <= n <= |env[g].slots| && g <= h < |env| && NoInactive(env[g].slots, i, n)
    requires h == g ==> n <= j
    ensures Reached(env, g, i, true, h, j) <==> Reached(env, g, n, true, h, j)
  {
    assert NoInactive(env[g].slots, i, |env[g].slots|) <==> NoInactive(env[g].slots, n, |env[g].slots|);
    hide OpenFrom;
    if h == g {
      assert NoInactive(env[g].slots, i, j) <==> NoInactive(env[g].slots, n, j);
      SameOpen(env, g, i, n);
    } else {
      OpenStep(env, g, i, h);
      OpenStep(env, g, n, h);
    }
  }

  lemma SameOpen(env: seq<Group>, g: nat, i: nat, n: nat)
    requires g < |env|
    ensures OpenFrom(env, g, i, true, g) && OpenFrom(env, g, n, true, g)
  {
  }

  lemma OpenStep(env: seq<Group>, g: nat, i: nat, h: nat)
    requires g < h <= |env|
    ensures OpenFrom(env, g, i, true, h) == OpenFrom(env, g + 1, 0, NoInactive(env[g].slots, i, |env[g].slots|), h)
  {
  }

  /** The search goes on with the next group. */
  lemma NextGroup(env: seq<Group>, g: nat, i: nat, open: bool, h: nat, j: nat)
    requires g < h < |env|
    ensures Reached(env, g, i, open, h, j) <==> Reached(env, g + 1, 0, OpenBehind(env[g], i, open), h, j)
  {
    hide OpenBehind;
  }

  lemma {:induction false} YieldIff(env: seq<Group>, g: nat, i: nat, open: bool, h: nat, j: nat)
    requires g <= h < |env| && i <= |env[g].slots|
    ensures Stor(h, j) in Yield(env, g, i, open) <==> Reached(env, g, i, open, h, j)
    decreases |env| - g, |env[g].slots| - i
  {
    hide Reached, NoInactive, OpenFrom, Yield, FirstFrom;
    var slots := env[g].slots;
    if !open {
      ClosedGroup(env, g, i, h, j);
      YieldClosed(env, g, i);
      if h == g {
        NotBefore(env, g + 1, 0, env[g].configured, h, j);
      } else {
        YieldIff(env, g + 1, 0, env[g].configured, h, j);
      }
    } else {
      var n := FirstFrom(slots, i);
      OpenGroup(env, g, i, h, j);
      YieldStep(env, g, i);
      if n < |slots| && slots[n] == Active {
        if h == g && j <= n {
          NotBefore(env, g, n + 1, true, h, j);
        } else {
          YieldIff(env, g, n + 1, true, h, j);
        }
      } else if h == g {
        NotBefore(env, g + 1, 0, n == |slots|, h, j);
      } else {
        YieldIff(env, g + 1, 0, n == |slots|, h, j);
      }
    }
  }

  lemma YieldClosed(env: seq<Group>, g: nat, i: nat)
    requires g < |env| && i <= |env[g].slots|
    ensures Yield(env, g, i, false) == Yield(env, g + 1, 0, env[g].configured)
  {
  }

  lemma {:induction false} ClosedGroup(env: seq<Group>, g: nat, i: nat, h: nat, j: nat)
    requires g <= h < |env| && i <= |env[g].slots|
    ensures Reached(env, g, i, false, h, j) <==> h != g && Reached(env, g + 1, 0, env[g].configured, h, j)
  {
    if h != g {
      NextGroup(env, g, i, false, h, j);
    }
  }

  lemma {:induction false} OpenGroup(env: seq<Group>, g: nat, i: nat, h: nat, j: nat)
    requires g <= h < |env| && i <= |env[g].slots|
    ensures var slots := env[g].slots;
            var n := FirstFrom(slots, i);
            Reached(env, g, i, true, h, j)
            <==> if n < |slots| && slots[n] == Active
                 then (h == g && j == n) || ((h == g ==> n < j) && Reached(env, g, n + 1, true, h, j))
                 else h != g && Reached(env, g + 1, 0, n == |slots|, h, j)
  {
    var slots := env[g].slots;
    var n := FirstFrom(slots, i);
    assert NoInactive(slots, i, n);
    if n < |slots| && slots[n] == Active {
      assert NoInactive(slots, i, n + 1);
      if h != g || n < j {
        PassSlots(env, g, i, n + 1, h, j);
      }
    } else if h != g {
      assert NoInactive(slots, i, |slots|) <==> n == |slots|;
      NextGroup(env, g, i, true, h, j);
    } else if n < j {
      assert n < |slots| ==> !NoInactive(slots, i, j);
    }
  }

  /** The device can be seen: its group is entered open, and no inactive device stands before it. */
  predicate Visible(env: seq<Group>, net: bool, h: nat, j: nat)
    requires h < |env|
  {
    j < |env[h].slots| && env[h].slots[j] == Active && OpenAt(env, net, h) && NoInactive(env[h].slots, 0, j)
  }

  /** Device by device: a run returns exactly the devices that can be seen. */
  lemma {:induction false} ReturnedIff(env: seq<Group>, net: bool, h: nat, j: nat)
    requires h < |env|
    ensures Stor(h, j) in Expected(env, net) <==> Visible(env, net, h, j)
  {
    hide Yield, OpenFrom, NoInactive;
    YieldIff(env, 0, 0, !net, h, j);
    LookingAhead(env, net, 0, h);
  }

  ghost predicate Complete(env: seq<Group>, net: bool) {
    forall c :: ActiveFrom(env, c, 0, 0) ==> c in Expected(env, net)
  }

  /** No active device stands behind an inactive one of its group, and none in a group that is entered closed. */
  predicate NoneHidden(env: seq<Group>, net: bool) {
    forall h, j :: 0 <= h < |env| && 0 <= j < |env[h].slots| && env[h].slots[j] == Active ==>
      OpenAt(env, net, h) && NoInactive(env[h].slots, 0, j)
  }

  /** A run returns every active storage device if and only if none is hidden. */
  lemma {:induction false} CompleteIff(env: seq<Group>, net: bool)
    ensures Complete(env, net) <==> NoneHidden(env, net)
  {
    hide Expected, OpenAt, NoInactive;
    if Complete(env, net) {
      forall h, j | 0 <= h < |env| && 0 <= j < |env[h].slots| && env[h].slots[j] == Active
        ensures OpenAt(env, net, h) && NoInactive(env[h].slots, 0, j)
      {
        assert ActiveFrom(env, Stor(h, j), 0, 0);
        ReturnedIff(env, net, h, j);
      }
    }
    if NoneHidden(env, net) {
      forall c | ActiveFrom(env, c, 0, 0)
        ensures c in Expected(env, net)
      {
        ReturnedIff(env, net, c.group, c.index);
      }
    }
  }

  // ---------------------------------------------------------------- what is hidden

  /** Groups that are not configured pass the way they are entered on. */
  lemma {:induction false} PassUnconfigured(env: seq<Group>, net: bool, g: nat, h: nat)
    requires GroupsOk(env) && g <= h <= |env| && forall k :: g <= k < h ==> !env[k].configured
    ensures OpenAt(env, net, h) == OpenAt(env, net, g)
    decreases h - g
  {
    if g < h {
      PassUnconfigured(env, net, g, h - 1);
      assert env[h - 1].slots == [];
    }
  }

  predicate NextConfigured(env: seq<Group>, g: nat, h: nat) {
    g <= h < |env| && env[h].configured && forall k :: g <= k < h ==> !env[k].configured
  }

  /** With a network device the first configured group is closed, and none of its devices is returned. */
  lemma NetworkHides(env: seq<Group>, h: nat, j: nat)
    requires GroupsOk(env) && NextConfigured(env, 0, h)
    ensures !OpenAt(env, true, h) && Stor(h, j) !in Expected(env, true)
  {
    PassUnconfigured(env, true, 0, h);
    ReturnedIff(env, true, h, j);
  }

  /** An inactive device in a group entered open hides the devices behind it and all of the next configured group. */
  lemma InactiveHides(env: seq<Group>, net: bool, g: nat, m: nat, h: nat, j: nat)
    requires GroupsOk(env) && g < |env| && m < |env[g].slots| && env[g].slots[m] == Inactive && OpenAt(env, net, g)
    requires (h == g && m < j) || NextConfigured(env, g + 1, h)
    ensures h != g ==> !OpenAt(env, net, h)
    ensures Stor(h, j) !in Expected(env, net)
  {
    if h != g {
      PassUnconfigured(env, net, g + 1, h);
    }
    ReturnedIff(env, net, h, j);
  }

  /** The only device of the first group is inactive: the active device of the second is never returned. */
  lemma InactiveExample()
    ensures var env := [Group(true, [Inactive]), Group(true, [Active])];
            !Complete(env, false) && Expected(env, false) == []
  {
    var env := [Group(true, [Inactive]), Group(true, [Active])];
    assert FirstFrom(env[0].slots, 0) == 0;
    assert Yield(env, 2, 0, true) == [];
    assert Yield(env, 1, 0, false) == Yield(env, 2, 0, true);
    assert ActiveFrom(env, Stor(1, 0), 0, 0);
  }

  // ---------------------------------------------------------------- without inactive devices

  predicate NoneInactive(env: seq<Group>) {
    forall g, i :: 0 <= g < |env| && 0 <= i < |env[g].slots| ==> env[g].slots[i] != Inactive
  }

  predicate NoneActive(group: Group) {
    forall i :: 0 <= i < |group.slots| ==> group.slots[i] != Active
  }

  /** The first configured group, or the end. */
  predicate FirstConfigured(env: seq<Group>, f: nat) {
    f <= |env| && (f < |env| ==> env[f].configured) && forall k :: 0 <= k < f ==> !env[k].configured
  }

  lemma {:induction false} OpenBehindFirst(env: seq<Group>, net: bool, f: nat, h: nat)
    requires GroupsOk(env) && NoneInactive(env) && FirstConfigured(env, f) && h <= |env|
    ensures OpenAt(env, net, h) <==> !net || f < h
    decreases h
  {
    if 0 < h {
      OpenBehindFirst(env, net, f, h - 1);
      assert NoInactive(env[h - 1].slots, 0, |env[h - 1].slots|);
    }
  }

  /** Then a run is complete if and only if there is no network device or the first configured group holds no device. */
  lemma {:induction false} CompleteWithoutInactive(env: seq<Group>, net: bool, f: nat)
    requires GroupsOk(env) && NoneInactive(env) && FirstConfigured(env, f)
    ensures Complete(env, net) <==> !net || f == |env| || NoneActive(env[f])
  {
    CompleteIff(env, net);
    hide Complete, OpenAt;
    forall h | 0 <= h < |env|
      ensures OpenAt(env, net, h) <==> !net || f < h
    {
      OpenBehindFirst(env, net, f, h);
    }
    if NoneHidden(env, net) && net && f < |env| {
      assert NoneActive(env[f]);
    }
  }

  // ---------------------------------------------------------------- the calls as they run

  class Api {
    const env: seq<Group>
    const net: bool
    var started: seq<bool>
    var ended: seq<bool>
    var cookie: Cookie

    function Model(): State
      reads this
    {
      State(started, ended, cookie)
    }

    predicate Valid()
      reads this
    {
      StateOk(env, Model()) && CookieOk(env, cookie)
    }

    constructor (env: seq<Group>, net: bool)
      ensures Valid() && this.env == env && this.net == net && Model() == State(AllFalse(|env|), AllFalse(|env|), Null)
    {
      this.env, this.net := env, net;
      started, ended, cookie := AllFalse(|env|), AllFalse(|env|), Null;
    }

    /** dev_stor_get */
    method NextInGroup(g: nat) returns (found: bool, more: bool)
      requires Valid() && g < |env|
      modifies this`cookie
      ensures Valid() && (found, more, cookie) == StorGet(env, g, old(cookie))
    {
      if !env[g].configured {
        return false, false;
      }
      var slots := env[g].slots;
      var i := 0;
      if cookie != Null {
        while i < |slots|
          invariant i <= |slots|
          invariant forall k :: 0 <= k < i ==> cookie != Stor(g, k)
        {
          if cookie == Stor(g, i) {
            break;
          }
          i := i + 1;
        }
        if i < |slots| {
          i := i + 1;
        }
      }
      ghost var first := i;
      assert first == SearchFrom(env, g, old(cookie));
      found := false;
      while i < |slots| && slots[i] == Absent
        invariant first <= i <= |slots| && FirstFrom(slots, first) == FirstFrom(slots, i)
      {
        i := i + 1;
      }
      more := i != |slots|;
      if more {
        cookie := Stor(g, i);
        found := slots[i] == Active;
      } else {
        cookie := Null;
      }
    }

    /** dev_enum_stor */
    method EnumGroup(g: nat) returns (found: bool)
      requires Valid() && g < |env|
      modifies this
      ensures Valid() && (found, Model()) == EnumStor(env, old(Model()), g)
    {
      hide StorGet;
      var more := false;
      if cookie == Null {
        found, more := NextInGroup(g);
        started := started[g := true];
      } else if cookie.Stor? && cookie.group == g {
        if ended[g] {
          return false;
        }
        found, more := NextInGroup(g);
      } else {
        if ended[g] {
          return false;
        }
        if !started[g] {
          started := started[g := true];
          found, more := NextInGroup(g);
        } else {
          found := false;
        }
      }
      ended := ended[g := !more];
    }

    /** dev_enum_storage */
    method EnumGroups() returns (found: bool)
      requires Valid()
      modifies this
      ensures Valid() && (found, Model()) == EnumStorage(env, old(Model()), 0)
    {
      hide EnumStor;
      var g := 0;
      while g < |env|
        invariant g <= |env| && Valid()
        invariant EnumStorage(env, old(Model()), 0) == EnumStorage(env, Model(), g)
      {
        found := EnumGroup(g);
        if found {
          return true;
        }
        g := g + 1;
      }
      found := false;
    }

    /** dev_enum_reset */
    method Reset()
      requires Valid()
      modifies this`started, this`ended
      ensures Valid() && started == AllFalse(|env|) && ended == AllFalse(|env|)
    {
      var g := 0;
      while g < |env|
        invariant g <= |env| && Valid()
        invariant forall k :: 0 <= k < g ==> !started[k] && !ended[k]
      {
        started, ended := started[g := false], ended[g := false];
        g := g + 1;
      }
    }

    /** API_dev_enum */
    method Next()
      requires Valid()
      modifies this
      ensures Valid() && Model() == DevEnum(env, net, old(Model()))
    {
      hide EnumStorage;
      if cookie == Null {
        Reset();
        if net {
          cookie := Net;
          return;
        }
      }
      var found := EnumGroups();
      if !found {
        cookie := Null;
      }
    }
  }
}
