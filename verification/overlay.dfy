/** The badge overlay's bookkeeping (src/ingame_overlay.py, `InGameOverlay`):
    cached pack and ratings, the badge pool, best-in-pack highlighting, and
    the reactions to `update`, `hide_all`, a poll tick and `destroy`. The
    Win32 window search is an input (`Env.window`), not a computation. */
module Overlay {

  import opened Wrappers
  import opened DraftSort
  import opened Layout
  import opened Badges

  /** What the window search reports about the game window once found: whether
      it is minimised, and its client rectangle in screen coordinates if it
      could be read. */
  datatype Window = Window(minimized: bool, clientRect: Option<Rect>)

  /** Everything read from outside at the moment of a call: the settings
      (`ingame_overlay_enabled`, `ingame_overlay_debug`, the calibration),
      whether the platform is Windows, and the window search's answer. */
  datatype Env = Env(
    enabled: bool,
    onWindows: bool,
    debug: bool,
    calibration: Calibration,
    window: Option<Window>)

  /** The overlay's state: the badge pool, the cached pack, ratings and pick,
      the last client rectangle read, and whether a poll tick is scheduled. */
  datatype State = State(
    badges: seq<Badge>,
    pack: seq<Card>,
    ratings: map<string, real>,
    pick: int,
    lastRect: Option<Rect>,
    polling: bool)

  /** `_find_mtga_window`: never finds anything off Windows. */
  function FindWindow(env: Env): (w: Option<Window>)
    ensures !env.onWindows ==> w.None?
    ensures env.onWindows ==> w == env.window
  {
    if env.onWindows then env.window else None
  }

  /** `_hide_all`: every badge withdrawn, none removed. */
  function HideBadges(bs: seq<Badge>): (r: seq<Badge>)
    ensures |r| == |bs|
    ensures forall i :: 0 <= i < |r| ==> !r[i].visible && r[i].content == bs[i].content
  {
    seq(|bs|, i requires 0 <= i < |bs| => Hide(bs[i]))
  }

  /** `ratings_dict.get(name, 0.0)` for each card, in order. */
  function PackRatings(pack: seq<Card>, ratings: map<string, real>): (rs: seq<real>)
    ensures |rs| == |pack|
    ensures forall i :: 0 <= i < |pack| ==>
      rs[i] == (if pack[i].name in ratings then ratings[pack[i].name] else 0.0)
  {
    seq(|pack|, i requires 0 <= i < |pack| => Lookup(ratings, pack[i].name).GetOr(0.0))
  }

  /** `max(ratings, default=0)`. */
  function MaxRating(rs: seq<real>): (m: real)
    ensures forall i :: 0 <= i < |rs| ==> rs[i] <= m
    ensures |rs| > 0 ==> exists i :: 0 <= i < |rs| && rs[i] == m
    ensures |rs| == 0 ==> m == 0.0
  {
    if |rs| == 0 then 0.0
    else if |rs| == 1 then rs[0]
    else
      var rest := MaxRating(rs[1..]);
      assert forall i :: 1 <= i < |rs| ==> rs[i] == rs[1..][i - 1];
      if rs[0] >= rest then rs[0] else rest
  }

  /** `rating == best_rating and rating > 0`. */
  predicate IsBest(rs: seq<real>, i: nat)
    requires i < |rs|
  {
    rs[i] == MaxRating(rs) && rs[i] > 0.0
  }

  /** Best-in-pack highlights exactly the positive ratings that no other card
      beats: every tied maximum, not only the first. */
  lemma IsBestCharacterised(rs: seq<real>, i: nat)
    requires i < |rs|
    ensures IsBest(rs, i) <==> rs[i] > 0.0 && forall j :: 0 <= j < |rs| ==> rs[j] <= rs[i]
  {
    var m := MaxRating(rs);
    if rs[i] > 0.0 && forall j :: 0 <= j < |rs| ==> rs[j] <= rs[i] {
      var k :| 0 <= k < |rs| && rs[k] == m;
      assert rs[k] <= rs[i];
    }
  }

  /** Some card is highlighted exactly when some card has a positive rating. */
  lemma SomeBestIffPositive(rs: seq<real>)
    ensures (exists i :: 0 <= i < |rs| && IsBest(rs, i)) <==> (exists i :: 0 <= i < |rs| && rs[i] > 0.0)
  {
    if exists i :: 0 <= i < |rs| && rs[i] > 0.0 {
      var k :| 0 <= k < |rs| && rs[k] == MaxRating(rs);
      assert IsBest(rs, k);
    }
  }

  /** The pool extended with fresh badges until it holds `n`. */
  function Grow(bs: seq<Badge>, n: nat): (r: seq<Badge>)
    ensures |r| == if |bs| >= n then |bs| else n
    ensures r[..|bs|] == bs
    ensures forall i :: |bs| <= i < |r| ==> r[i] == NewBadge
  {
    if |bs| >= n then bs else bs + seq(n - |bs|, _ => NewBadge)
  }

  /** The success path of `_position_badges`: the pool grown to the pack
      size, badge `i` showing card `i` of the sorted pack at `positions[i]`
      with its rating (0.0 when unrated), gold exactly for the best-in-pack
      cards; the rest of the pool hidden with its old content kept. */
  function PlaceBadges(bs: seq<Badge>, sorted: seq<Card>, ratings: map<string, real>, positions: seq<Point>, debug: bool): (r: seq<Badge>)
    requires |positions| == |sorted|
    ensures |r| == if |bs| >= |sorted| then |bs| else |sorted|
    ensures forall i :: 0 <= i < |sorted| ==>
      && r[i].visible
      && r[i].content.Some?
      && r[i].content.value.x == positions[i].x
      && r[i].content.value.y == positions[i].y
      && r[i].content.value.rating == PackRatings(sorted, ratings)[i]
      && (r[i].content.value.best <==> IsBest(PackRatings(sorted, ratings), i))
      && (r[i].content.value.colours == BestColours <==> IsBest(PackRatings(sorted, ratings), i))
      && r[i].content.value.colours == TierColours(PackRatings(sorted, ratings)[i], IsBest(PackRatings(sorted, ratings), i))
      && r[i].content.value.debug == (if debug then Some((i, ShortName(sorted[i].name))) else None)
    ensures forall i :: |sorted| <= i < |r| ==> !r[i].visible && r[i].content == bs[i].content
  {
    var pool := Grow(bs, |sorted|);
    var rs := PackRatings(sorted, ratings);
    var r := seq(|pool|, i requires 0 <= i < |pool| =>
      if i < |sorted| then
        Show(pool[i], positions[i].x, positions[i].y, rs[i], IsBest(rs, i),
             if debug then Some((i, sorted[i].name)) else None)
      else Hide(pool[i]));
    assert forall i :: |sorted| <= i < |r| ==> !r[i].visible && r[i].content == bs[i].content by {
      forall i | |sorted| <= i < |r|
        ensures !r[i].visible && r[i].content == bs[i].content
      {
        assert pool[i] == pool[..|bs|][i];
      }
    }
    assert forall i :: 0 <= i < |sorted| ==> (r[i].content.value.colours == BestColours <==> IsBest(rs, i)) by {
      forall i | 0 <= i < |sorted|
        ensures r[i].content.value.colours == BestColours <==> IsBest(rs, i)
      {
        BestColoursReserved(rs[i], IsBest(rs, i));
      }
    }
    r
  }

  /** The guards of `_position_badges` before the layout: cards and ratings
      cached, window found, not minimised, client rectangle read. */
  function ReadRect(s: State, env: Env): (r: Option<Rect>)
    ensures r.Some? <==>
      && |s.pack| > 0 && |s.ratings| > 0
      && FindWindow(env).Some?
      && !FindWindow(env).value.minimized
      && FindWindow(env).value.clientRect.Some?
    ensures r.Some? ==> r == FindWindow(env).value.clientRect
  {
    if |s.pack| == 0 || |s.ratings| == 0 then None
    else match FindWindow(env)
      case None => None
      case Some(w) => if w.minimized then None else w.clientRect
  }

  /** Every guard passes and the layout has one position per card. */
  predicate Placeable(s: State, env: Env) {
    ReadRect(s, env).Some? && LayoutApplies(|s.pack|, ReadRect(s, env).value)
  }

  /** `_position_badges`. Any failed guard hides every badge; the rectangle
      is remembered once read, even if the layout then fails. */
  function PositionBadges(s: State, env: Env): (r: State)
    ensures r.pack == s.pack && r.ratings == s.ratings && r.pick == s.pick && r.polling == s.polling
    ensures !Placeable(s, env) ==> r.badges == HideBadges(s.badges)
    ensures Placeable(s, env) ==> |r.badges| == if |s.badges| >= |s.pack| then |s.badges| else |s.pack|
    ensures |r.badges| >= |s.badges|
  {
    var sorted := if |s.pack| > 0 then SortPack(s.pack) else [];
    SortPackPermutes(s.pack);
    match ReadRect(s, env)
    case None => s.(badges := HideBadges(s.badges))
    case Some(rect) =>
      var s1 := s.(lastRect := Some(rect));
      var positions := CardPositions(|sorted|, rect, env.calibration);
      if |positions| != |sorted| then s1.(badges := HideBadges(s.badges))
      else s1.(badges := PlaceBadges(s.badges, sorted, s.ratings, positions, env.debug))
  }

  /** On success the badges show the sorted pack at its layout positions. */
  lemma PositionBadgesShowsSortedPack(s: State, env: Env)
    requires Placeable(s, env)
    ensures PositionBadges(s, env).lastRect == ReadRect(s, env)
    ensures PositionBadges(s, env).badges ==
      PlaceBadges(s.badges, SortPack(s.pack), s.ratings,
                  CardPositions(|s.pack|, ReadRect(s, env).value, env.calibration), env.debug)
  {
    SortPackPermutes(s.pack);
  }

  /** Number of visible badges. */
  function VisibleCount(bs: seq<Badge>): (k: nat)
    ensures k <= |bs|
  {
    if |bs| == 0 then 0
    else VisibleCount(bs[..|bs| - 1]) + (if bs[|bs| - 1].visible then 1 else 0)
  }

  lemma {:induction false} VisibleCountOfPrefix(bs: seq<Badge>, n: nat)
    requires n <= |bs|
    requires forall i :: 0 <= i < |bs| ==> (bs[i].visible <==> i < n)
    ensures VisibleCount(bs) == n
    decreases |bs|
  {
    if |bs| > n {
      VisibleCountOfPrefix(bs[..|bs| - 1], n);
    } else if |bs| > 0 {
      VisibleCountOfPrefix(bs[..|bs| - 1], n - 1);
    }
  }

  lemma {:induction false} VisibleCountOfHidden(bs: seq<Badge>)
    requires forall i :: 0 <= i < |bs| ==> !bs[i].visible
    ensures VisibleCount(bs) == 0
  {
    VisibleCountOfPrefix(bs, 0);
  }

  /** After any reposition attempt the number of visible badges is the pack
      size on success and zero otherwise. */
  lemma VisibleBadgesMatchPack(s: State, env: Env)
    ensures VisibleCount(PositionBadges(s, env).badges) == if Placeable(s, env) then |s.pack| else 0
  {
    var r := PositionBadges(s, env);
    if Placeable(s, env) {
      PositionBadgesShowsSortedPack(s, env);
      SortPackPermutes(s.pack);
      VisibleCountOfPrefix(r.badges, |s.pack|);
    } else {
      VisibleCountOfHidden(r.badges);
    }
  }

  lemma PlaceBadgesTwice(bs: seq<Badge>, sorted: seq<Card>, ratings: map<string, real>, positions: seq<Point>, debug: bool)
    requires |positions| == |sorted|
    ensures var once := PlaceBadges(bs, sorted, ratings, positions, debug);
      PlaceBadges(once, sorted, ratings, positions, debug) == once
  {
    var once := PlaceBadges(bs, sorted, ratings, positions, debug);
    var twice := PlaceBadges(once, sorted, ratings, positions, debug);
    forall i | 0 <= i < |once|
      ensures twice[i] == once[i]
    {
    }
  }

  /** Repositioning twice against the same window changes nothing the second
      time: a steady window gives a steady overlay. */
  lemma PositionBadgesIdempotent(s: State, env: Env)
    ensures PositionBadges(PositionBadges(s, env), env) == PositionBadges(s, env)
  {
    var r := PositionBadges(s, env);
    assert ReadRect(r, env) == ReadRect(s, env);
    match ReadRect(s, env)
    case None =>
      assert HideBadges(HideBadges(s.badges)) == HideBadges(s.badges);
    case Some(rect) =>
      var positions := CardPositions(|SortPack(s.pack)|, rect, env.calibration);
      if |positions| != |SortPack(s.pack)| {
        assert HideBadges(HideBadges(s.badges)) == HideBadges(s.badges);
      } else {
        PlaceBadgesTwice(s.badges, SortPack(s.pack), s.ratings, positions, env.debug);
      }
  }

  /** `InGameOverlay.update`. */
  function Update(s: State, env: Env, pack: seq<Card>, ratings: map<string, real>, pick: int): (r: State)
    ensures |r.badges| >= |s.badges|
    ensures !env.enabled ==> r == s.(badges := HideBadges(s.badges))
    ensures env.enabled && !env.onWindows ==> r == s
    ensures env.enabled && env.onWindows ==> r.pack == pack && r.ratings == ratings && r.pick == pick
    ensures env.enabled && env.onWindows ==> r == PositionBadges(s.(pack := pack, ratings := ratings, pick := pick), env)
  {
    if !env.enabled then s.(badges := HideBadges(s.badges))
    else if !env.onWindows then s
    else PositionBadges(s.(pack := pack, ratings := ratings, pick := pick), env)
  }

  /** `InGameOverlay.hide_all`: clears the cached pack and ratings and hides
      every badge, keeping the pool and the pick number. */
  function HideAll(s: State): (r: State)
    ensures r.pack == [] && r.ratings == map[]
    ensures r.pick == s.pick && r.polling == s.polling && r.lastRect == s.lastRect
    ensures |r.badges| == |s.badges|
    ensures forall i :: 0 <= i < |r.badges| ==> !r.badges[i].visible
  {
    s.(pack := [], ratings := map[], badges := HideBadges(s.badges))
  }

  /** `_poll_tick`: repositions only when enabled and both caches are
      non-empty, and schedules the next tick. */
  function PollTick(s: State, env: Env): (r: State)
    ensures r.polling
    ensures r.pack == s.pack && r.ratings == s.ratings && r.pick == s.pick
    ensures !(env.enabled && |s.pack| > 0 && |s.ratings| > 0) ==> r.badges == s.badges
    ensures env.enabled && |s.pack| > 0 && |s.ratings| > 0 ==> r == PositionBadges(s, env).(polling := true)
    ensures |r.badges| >= |s.badges|
  {
    var t := if env.enabled && |s.pack| > 0 && |s.ratings| > 0 then PositionBadges(s, env) else s;
    t.(polling := true)
  }

  /** `InGameOverlay.destroy`: stops polling and releases every badge. */
  function Destroy(s: State): (r: State)
    ensures r.badges == [] && !r.polling
    ensures r.pack == s.pack && r.ratings == s.ratings && r.pick == s.pick
  {
    s.(badges := [], polling := false)
  }

  /** The constructor: empty pool and caches, pick -1, then a first tick. */
  function Init(env: Env): (r: State)
    ensures r.badges == [] && r.pack == [] && r.ratings == map[] && r.pick == -1
    ensures r.polling
  {
    PollTick(State([], [], map[], -1, None, false), env)
  }

  /** Tearing down twice is the same as tearing down once. */
  lemma DestroyIdempotent(s: State)
    ensures Destroy(Destroy(s)) == Destroy(s)
  {
  }

  /** After `hide_all` a poll tick shows nothing, whatever the window does,
      until the next `update`. */
  lemma HideAllStaysHidden(s: State, env: Env)
    ensures PollTick(HideAll(s), env).badges == HideAll(s).badges
    ensures VisibleCount(PollTick(HideAll(s), env).badges) == 0
  {
    VisibleCountOfHidden(HideAll(s).badges);
  }

  /** Placing badges ignores whether they were hidden beforehand. */
  lemma PlaceBadgesAfterHide(bs: seq<Badge>, sorted: seq<Card>, ratings: map<string, real>, positions: seq<Point>, debug: bool)
    requires |positions| == |sorted|
    ensures PlaceBadges(HideBadges(bs), sorted, ratings, positions, debug) == PlaceBadges(bs, sorted, ratings, positions, debug)
  {
    var r1 := PlaceBadges(HideBadges(bs), sorted, ratings, positions, debug);
    var r2 := PlaceBadges(bs, sorted, ratings, positions, debug);
    forall i | 0 <= i < |r1|
      ensures r1[i] == r2[i]
    {
    }
  }

  /** A reposition does not depend on whether the badges were hidden before. */
  lemma PositionBadgesAfterHide(s: State, env: Env)
    ensures PositionBadges(s.(badges := HideBadges(s.badges)), env) == PositionBadges(s, env)
  {
    var h := s.(badges := HideBadges(s.badges));
    assert ReadRect(h, env) == ReadRect(s, env);
    match ReadRect(s, env)
    case None =>
      assert HideBadges(HideBadges(s.badges)) == HideBadges(s.badges);
    case Some(rect) =>
      var positions := CardPositions(|SortPack(s.pack)|, rect, env.calibration);
      if |positions| != |SortPack(s.pack)| {
        assert HideBadges(HideBadges(s.badges)) == HideBadges(s.badges);
      } else {
        PlaceBadgesAfterHide(s.badges, SortPack(s.pack), s.ratings, positions, env.debug);
      }
  }

  /** Disabling the overlay hides every badge on `update` but keeps the cached
      pack, ratings and pick, so the first tick after re-enabling shows the
      same overlay as a tick would have shown had it never been disabled. */
  lemma DisableKeepsCacheForReenable(s: State, off: Env, pack: seq<Card>, ratings: map<string, real>, pick: int)
    requires !off.enabled
    ensures Update(s, off, pack, ratings, pick).pack == s.pack
    ensures Update(s, off, pack, ratings, pick).ratings == s.ratings
    ensures Update(s, off, pack, ratings, pick).pick == s.pick
    ensures VisibleCount(Update(s, off, pack, ratings, pick).badges) == 0
    ensures |s.pack| > 0 && |s.ratings| > 0 ==>
      PollTick(Update(s, off, pack, ratings, pick), off.(enabled := true)) == PollTick(s, off.(enabled := true))
  {
    var r := Update(s, off, pack, ratings, pick);
    VisibleCountOfHidden(r.badges);
    PositionBadgesAfterHide(s, off.(enabled := true));
  }

  /** With the overlay disabled a poll tick leaves every badge as it was, so
      badges that were visible stay visible until the next `update`. */
  lemma DisabledTickChangesNothing(s: State, env: Env)
    requires !env.enabled
    ensures PollTick(s, env) == s.(polling := true)
  {
  }

  /** An enabled `update` on Windows shows the new pack: one visible badge
      per card when the window can be placed, the sorted pack at its layout
      positions, and no visible badge otherwise. */
  lemma EnabledUpdateShowsPack(s: State, env: Env, pack: seq<Card>, ratings: map<string, real>, pick: int)
    requires env.enabled && env.onWindows
    ensures var s1 := s.(pack := pack, ratings := ratings, pick := pick);
      VisibleCount(Update(s, env, pack, ratings, pick).badges) == if Placeable(s1, env) then |pack| else 0
    ensures var s1 := s.(pack := pack, ratings := ratings, pick := pick);
      Placeable(s1, env) ==>
        Update(s, env, pack, ratings, pick).badges ==
        PlaceBadges(s.badges, SortPack(pack), ratings,
                    CardPositions(|pack|, ReadRect(s1, env).value, env.calibration), env.debug)
  {
    var s1 := s.(pack := pack, ratings := ratings, pick := pick);
    VisibleBadgesMatchPack(s1, env);
    if Placeable(s1, env) {
      PositionBadgesShowsSortedPack(s1, env);
    }
  }

  /** An enabled tick with a cached pack and ratings repositions them: the
      badges again show the cached pack when the window can be placed, and
      none is visible otherwise. */
  lemma EnabledTickShowsCache(s: State, env: Env)
    requires env.enabled && |s.pack| > 0 && |s.ratings| > 0
    ensures VisibleCount(PollTick(s, env).badges) == if Placeable(s, env) then |s.pack| else 0
    ensures Placeable(s, env) ==>
      PollTick(s, env).badges ==
      PlaceBadges(s.badges, SortPack(s.pack), s.ratings,
                  CardPositions(|s.pack|, ReadRect(s, env).value, env.calibration), env.debug)
  {
    VisibleBadgesMatchPack(s, env);
    if Placeable(s, env) {
      PositionBadgesShowsSortedPack(s, env);
    }
  }
}
