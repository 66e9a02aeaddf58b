/** Which page goes out next (`next_page_number_get` in src/ant_profiles/ant_tpms/ant_tpms.c). */
module Scheduler {
  import opened Words

  const PAGE_1: u8 := 1
  const PAGE_16: u8 := 16
  const PAGE_80: u8 := 80
  const PAGE_81: u8 := 81
  const PAGE_82: u8 := 82

  const COMMON_PAGE_80_INTERVAL := 119
  const COMMON_PAGE_81_INTERVAL := 120
  const COMMON_PAGE_82_INTERVAL := 121

  predicate Known(page: u8) {
    page == PAGE_1 || page == PAGE_16 || page == PAGE_80 || page == PAGE_81 || page == PAGE_82
  }

  datatype Option<+T> = None | Some(value: T)

  /** What the request controller reports pending takes the slot if it is a page of the profile. */
  predicate Served(request: Option<u8>) {
    request.Some? && Known(request.value)
  }

  /** The page of a slot that no request takes. */
  function SlotPage(counter: u8): u8 {
    if counter == COMMON_PAGE_80_INTERVAL then PAGE_80
    else if counter == COMMON_PAGE_81_INTERVAL then PAGE_81
    else if counter == COMMON_PAGE_82_INTERVAL then PAGE_82
    else PAGE_1
  }

  /** The page a call sends. */
  function SentPage(counter: u8, request: Option<u8>): u8 {
    if Served(request) then request.value else SlotPage(counter)
  }

  /** The counter after a call. */
  function NextCounter(counter: u8, request: Option<u8>): u8 {
    if !Served(request) && counter == COMMON_PAGE_82_INTERVAL then 0 else ToU8(counter + 1)
  }

  datatype ControllerState = Idle | Active

  /** The SDK's request controller. `upcoming` is the page, if any, that it would report pending when
      next asked; idle, it reports none. */
  class RequestController {
    var state: ControllerState
    var transmitCount: u8
    var upcoming: Option<u8>

    constructor ()
      ensures state == Idle && Request() == None
    {
      state, transmitCount, upcoming := Idle, 0, None;
    }

    /** What the controller reports when asked. */
    function Request(): Option<u8>
      reads this
    {
      if state == Idle then None else upcoming
    }

    /** Reports the pending page. What will be pending after that is open, but an idle controller
        stays idle. */
    method PendingGet() returns (pending: bool, page: u8)
      modifies this
      ensures pending == old(Request()).Some?
      ensures pending ==> page == old(Request()).value
      ensures old(state) == Idle ==> state == Idle && transmitCount == old(transmitCount)
    {
      page := *;
      pending := state != Idle && upcoming.Some?;
      if pending {
        page := upcoming.value;
      }
      if state != Idle {
        state := *;
        transmitCount := *;
      }
      upcoming := *;
    }

    /** `next_page_number_get`: a request for a known page takes the slot; one for an unknown page
        is discarded, which leaves the controller idle. */
    method NextPageNumberGet(counter: u8) returns (page: u8, next: u8)
      modifies this
      ensures page == SentPage(counter, old(Request())) && Known(page)
      ensures next == NextCounter(counter, old(Request()))
      ensures old(Request()).Some? && !Served(old(Request())) ==> state == Idle && transmitCount == 0
      ensures old(state) == Idle ==> state == Idle && transmitCount == old(transmitCount)
    {
      next := ToU8(counter + 1);
      ghost var discarded := false;
      ghost var request := Request();
      var pending: bool;
      pending, page := PendingGet();
      while pending
        invariant !discarded ==> pending == request.Some? && (pending ==> page == request.value)
        invariant discarded ==> !pending && state == Idle && transmitCount == 0 && request.Some? && !Served(request)
        invariant old(state) == Idle ==> state == Idle && transmitCount == old(transmitCount)
        decreases pending
      {
        if page != PAGE_1 && page != PAGE_16 && page != PAGE_80 && page != PAGE_81 && page != PAGE_82 {
          transmitCount := 0;
          state := Idle;
          discarded := true;
        } else {
          return;
        }
        pending, page := PendingGet();
      }
      var slot := next - 1;
      if slot == COMMON_PAGE_80_INTERVAL {
        page := PAGE_80;
      } else if slot == COMMON_PAGE_81_INTERVAL {
        page := PAGE_81;
      } else if slot == COMMON_PAGE_82_INTERVAL {
        page := PAGE_82;
        next := 0;
      } else {
        page := PAGE_1;
      }
    }
  }

  // ---- Runs of calls; `asked[i]` is what the controller reports in call i ----

  /** The counter before call `i`. */
  function Counter(start: u8, asked: seq<Option<u8>>, i: nat): u8
    requires i <= |asked|
  {
    if i == 0 then start else NextCounter(Counter(start, asked, i - 1), asked[i - 1])
  }

  /** The page that call `i` sends. */
  function PageSent(start: u8, asked: seq<Option<u8>>, i: nat): u8
    requires i < |asked|
  {
    SentPage(Counter(start, asked, i), asked[i])
  }

  /** Call `i` sends page 82 without being asked to. */
  predicate Sends82(start: u8, asked: seq<Option<u8>>, i: nat)
    requires i < |asked|
  {
    !Served(asked[i]) && PageSent(start, asked, i) == 82
  }

  /** How often, from call `lo` to before `hi`, a request took slot 121. */
  function Taken121(start: u8, asked: seq<Option<u8>>, lo: nat, hi: nat): nat
    requires lo <= hi <= |asked|
    decreases hi
  {
    if lo == hi then 0
    else
      var last := Served(asked[hi - 1]) && Counter(start, asked, hi - 1) == 121;
      Taken121(start, asked, lo, hi - 1) + (if last then 1 else 0)
  }

  predicate Quiet(start: u8, asked: seq<Option<u8>>, lo: nat, hi: nat)
    requires lo <= hi <= |asked|
  {
    forall t :: lo <= t < hi ==> !Sends82(start, asked, t)
  }

  /** A request for page 1, 16, 80, 81 or 82 is served with that page. Any other, or none, leaves the
      slot to page 80, 81 or 82 exactly if it is number 119, 120 or 121, and else to page 1. */
  lemma PagesOfSlots(start: u8, asked: seq<Option<u8>>, i: nat)
    requires i < |asked|
    ensures var page, slot := PageSent(start, asked, i), Counter(start, asked, i);
      if asked[i].Some? && asked[i].value in [1, 16, 80, 81, 82]
      then Served(asked[i]) && page == asked[i].value
      else
        && !Served(asked[i]) && page in [1, 80, 81, 82]
        && (page == 80 <==> slot == 119) && (page == 81 <==> slot == 120) && (page == 82 <==> slot == 121)
  {
    if asked[i].Some? {
      OneOfFive(asked[i].value);
    }
    hide Counter;
  }

  lemma OneOfFive(page: u8)
    ensures page in [1, 16, 80, 81, 82] <==> page == 1 || page == 16 || page == 80 || page == 81 || page == 82
  {
  }

  lemma CounterStep(c: u8, request: Option<u8>)
    ensures NextCounter(c, request) == if c == 255 || (!Served(request) && c == 121) then 0 else c + 1
  {
  }

  /** While page 82 is not sent from its slot the counter counts calls, 256 for each time taken. */
  lemma {:induction false} CounterCountsCalls(start: u8, asked: seq<Option<u8>>, lo: nat, t: nat)
    requires lo <= t <= |asked| && Counter(start, asked, lo) == 0 && Quiet(start, asked, lo, t)
    ensures var c := Counter(start, asked, t);
      t - lo == c + 256 * (Taken121(start, asked, lo, t) - (if c > 121 then 1 else 0))
    decreases t
  {
    hide NextCounter, Served;
    if lo < t {
      CounterCountsCalls(start, asked, lo, t - 1);
      CounterStep(Counter(start, asked, t - 1), asked[t - 1]);
      assert !Sends82(start, asked, t - 1);
    }
  }

  /** Consecutive unrequested page 82 sends are exactly 122 + 256 k calls apart, where k is the
      number of times a request took slot 121 in between. */
  lemma Page82Cadence(start: u8, asked: seq<Option<u8>>, i: nat, j: nat)
    requires i < j < |asked| && Sends82(start, asked, i) && Sends82(start, asked, j)
    requires Quiet(start, asked, i + 1, j)
    ensures j - i == 122 + 256 * Taken121(start, asked, i + 1, j)
  {
    CounterCountsCalls(start, asked, i + 1, j);
  }

  /** From start-up on, the first one comes after 121 + 256 k calls. */
  lemma FirstPage82(asked: seq<Option<u8>>, j: nat)
    requires j < |asked| && Sends82(0, asked, j) && Quiet(0, asked, 0, j)
    ensures j == 121 + 256 * Taken121(0, asked, 0, j)
  {
    CounterCountsCalls(0, asked, 0, j);
  }

  /** Any delay of the law occurs: requests that always take slot 121 put page 82 off without limit. */
  lemma CadenceAttained(k: nat) returns (asked: seq<Option<u8>>)
    ensures |asked| == 122 + 256 * k && Sends82(0, asked, |asked| - 1)
    ensures Quiet(0, asked, 0, |asked| - 1) && Taken121(0, asked, 0, |asked| - 1) == k
  {
    var n := 122 + 256 * k;
    asked := seq(n, t requires 0 <= t < n => Scripted(k, t));
    hide Counter;
    ScriptedCounter(asked, k, n - 1);
    LastRemainder(k);
    forall t | 0 <= t < n - 1
      ensures !Sends82(0, asked, t)
    {
      ScriptedCounter(asked, k, t);
      if t % 256 == 121 {
        LateRemainder(k, t);
      }
    }
    FirstPage82(asked, n - 1);
  }

  /** Requests for page 16 in the first k slots numbered 121. */
  function Scripted(k: nat, t: nat): Option<u8> {
    if t % 256 == 121 && t < 256 * k then Some(16) else None
  }

  lemma LastRemainder(k: nat)
    ensures (121 + 256 * k) % 256 == 121
  {
  }

  lemma {:induction false} ScriptedCounter(asked: seq<Option<u8>>, k: nat, i: nat)
    requires |asked| == 122 + 256 * k && i < |asked|
    requires forall t :: 0 <= t < |asked| ==> asked[t] == Scripted(k, t)
    ensures Counter(0, asked, i) == i % 256
  {
    hide NextCounter;
    if i > 0 {
      ScriptedCounter(asked, k, i - 1);
      CounterStep(Counter(0, asked, i - 1), asked[i - 1]);
      NextRemainders(i - 1);
      assert i - 1 < 121 + 256 * k;
      if (i - 1) % 256 == 121 {
        LateRemainder(k, i - 1);
      }
    }
  }

  lemma NextRemainders(i: nat)
    ensures (i + 1) % 256 == (if i % 256 == 255 then 0 else i % 256 + 1)
    ensures (i + 1) % 122 == (if i % 122 == 121 then 0 else i % 122 + 1)
  {
    IsRemainder256(i + 1, if i % 256 == 255 then i / 256 + 1 else i / 256, if i % 256 == 255 then 0 else i % 256 + 1);
    IsRemainder122(i + 1, if i % 122 == 121 then i / 122 + 1 else i / 122, if i % 122 == 121 then 0 else i % 122 + 1);
  }

  lemma IsRemainder256(n: nat, q: nat, r: nat)
    requires n == 256 * q + r && r < 256
    ensures n % 256 == r
  {
  }

  lemma IsRemainder122(n: nat, q: nat, r: nat)
    requires n == 122 * q + r && r < 122
    ensures n % 122 == r
  {
  }

  lemma LateRemainder(k: nat, i: nat)
    requires i < 121 + 256 * k && i % 256 == 121
    ensures i < 256 * k
  {
  }

  /** Unless requests are served the pages repeat every 122 calls: 119 times page 1, then 80, 81, 82. */
  lemma UnrequestedCycle(asked: seq<Option<u8>>, i: nat)
    requires i < |asked| && forall t :: 0 <= t < |asked| ==> !Served(asked[t])
    ensures Counter(0, asked, i) == i % 122
    ensures PageSent(0, asked, i) == if i % 122 < 119 then 1 else i % 122 - 39
  {
    hide Counter;
    UnrequestedCounter(asked, i);
  }

  lemma {:induction false} UnrequestedCounter(asked: seq<Option<u8>>, i: nat)
    requires i < |asked| && forall t :: 0 <= t < |asked| ==> !Served(asked[t])
    ensures Counter(0, asked, i) == i % 122
  {
    hide NextCounter, Served;
    if i > 0 {
      UnrequestedCounter(asked, i - 1);
      CounterStep(Counter(0, asked, i - 1), asked[i - 1]);
      NextRemainders(i - 1);
    }
  }

  lemma {:induction false} QuietCounter(start: u8, asked: seq<Option<u8>>, s: nat, n: nat)
    requires s + n <= |asked| && Quiet(start, asked, s, s + n)
    ensures Counter(start, asked, s + n) == (Counter(start, asked, s) + n) % 256
    decreases n
  {
    hide NextCounter, Served;
    if n > 0 {
      QuietCounter(start, asked, s, n - 1);
      CounterStep(Counter(start, asked, s + n - 1), asked[s + n - 1]);
      assert !Sends82(start, asked, s + n - 1);
    }
  }

  /** The first unrequested page 82 in a stretch of calls, if there is one. */
  lemma {:induction false} FirstSend(start: u8, asked: seq<Option<u8>>, lo: nat, hi: nat) returns (t: nat)
    requires lo <= hi <= |asked|
    ensures lo <= t <= hi && Quiet(start, asked, lo, t) && (t < hi ==> Sends82(start, asked, t))
    decreases hi
  {
    if lo == hi {
      t := lo;
    } else {
      t := FirstSend(start, asked, lo, hi - 1);
      if t == hi - 1 && !Sends82(start, asked, t) {
        t := hi;
      }
    }
  }

  /** In every 256 consecutive calls each of the pages 80, 81 and 82 has its turn, and goes out then
      unless a request takes that very slot. */
  lemma EveryPageHasItsTurn(start: u8, asked: seq<Option<u8>>, s: nat, page: u8) returns (t: nat)
    requires s + 256 <= |asked| && 80 <= page <= 82
    ensures s <= t < s + 256 && Counter(start, asked, t) == page + 39
    ensures PageSent(start, asked, t) == page || Served(asked[t])
  {
    hide Counter, Quiet, Served;
    var slot := page + 39;
    var c := Counter(start, asked, s);
    var d := (slot - c) % 256;
    StepsToSlot(c, slot);
    t := FirstSend(start, asked, s, s + d);
    QuietCounter(start, asked, s, t - s);
    if t < s + d {
      EarlySend(c, slot, t - s);
      AfterSend(start, asked, t);
      var u := FirstSend(start, asked, t + 1, t + 1 + slot);
      QuietCounter(start, asked, t + 1, u - (t + 1));
      t := u;
    }
  }

  lemma StepsToSlot(c: u8, slot: u8)
    ensures var d := (slot - c) % 256; 0 <= d < 256 && (c + d) % 256 == slot
  {
  }

  /** A send on the way to a slot can only be among the first two calls. */
  lemma EarlySend(c: u8, slot: u8, e: nat)
    requires 119 <= slot <= 121 && e < (slot - c) % 256 && (c + e) % 256 == 121
    ensures e <= 1
  {
  }

  lemma AfterSend(start: u8, asked: seq<Option<u8>>, t: nat)
    requires t < |asked| && Sends82(start, asked, t)
    ensures Counter(start, asked, t + 1) == 0
  {
  }
}
