/** How long the takeover thread sleeps after a chunk. Doubles are reals, and sizes are unsigned
    64-bit words. */
module Throttle {
  const WORD := 0x1_0000_0000_0000_0000
  const SECOND := 1000000
  /** The limit the file server asks for, in bytes per second. */
  const SERVER_LIMIT := 7 * 1024 * 1024

  /** A chunk of `data` bytes that took t microseconds. */
  datatype Chunk = Chunk(data: nat, t: nat)

  function AtLeastOne(t: nat): nat {
    if t < 1 then 1 else t
  }

  /** What the limit allows in that time, whole milliseconds only. */
  function AllowedBytes(speed: nat, t: nat): nat {
    (t / 1000) * (speed / 1000) % WORD
  }

  /** The unsigned difference. */
  function Excess(data: nat, allowed: nat): nat {
    (data - allowed) % WORD
  }

  /** The wait in microseconds, before it is cut off. */
  function Wait(speed: nat, k: Chunk): real
    requires k.data > 0
  {
    var rate := k.data as real / AtLeastOne(k.t) as real;
    Excess(k.data, AllowedBytes(speed, k.t)) as real / rate
  }

  function Round(x: real): int {
    (x + 0.5).Floor
  }

  /** An empty chunk gives 0 / 0 or a division by zero, and the cut-off turns both into a second. */
  function Sleep(speed: nat, k: Chunk): int {
    if k.data == 0 then SECOND
    else if Wait(speed, k) < SECOND as real then Round(Wait(speed, k))
    else Round(SECOND as real)
  }

  lemma Fraction(a: nat, d: nat, m: nat)
    requires d > 0 && m > 0
    ensures a as real / (d as real / m as real) == (a * m) as real / d as real
  {
    var q := d as real / m as real;
    assert q * m as real == d as real;
    assert (a * m) as real == a as real * m as real;
    assert a as real / q * d as real == a as real * m as real by {
      assert a as real / q * q == a as real;
    }
  }

  lemma Divided(x: real, d: real, y: real)
    requires d > 0.0
    ensures x <= y * d ==> x / d <= y
    ensures x >= y * d ==> x / d >= y
    ensures x == y * d <==> x / d == y
  {
    assert x / d * d == x;
  }

  lemma WaitIs(speed: nat, k: Chunk)
    requires k.data > 0
    ensures Wait(speed, k) == (Excess(k.data, AllowedBytes(speed, k.t)) * AtLeastOne(k.t)) as real / k.data as real
  {
    Fraction(Excess(k.data, AllowedBytes(speed, k.t)), k.data, AtLeastOne(k.t));
  }

  lemma RoundStays(x: real, n: nat)
    requires 0.0 <= x <= n as real
    ensures 0 <= Round(x) <= n
  {}

  /** An empty chunk, such as every read of a broken stream gives, costs a second. */
  lemma EmptyChunk(speed: nat, t: nat)
    ensures Sleep(speed, Chunk(0, t)) == 1000000
  {}

  /** No chunk makes the thread sleep for less than nothing or more than a second. */
  lemma SleepBounds(speed: nat, k: Chunk)
    ensures 0 <= Sleep(speed, k) <= 1000000
  {
    if k.data > 0 {
      WaitIs(speed, k);
      var x := Excess(k.data, AllowedBytes(speed, k.t)) * AtLeastOne(k.t);
      Divided(x as real, k.data as real, 0.0);
      if Wait(speed, k) < SECOND as real {
        RoundStays(Wait(speed, k), SECOND);
      } else {
        RoundStays(SECOND as real, SECOND);
      }
    }
  }

  /** A chunk that took no time counts as one microsecond, and costs another. */
  lemma InstantChunk(speed: nat, data: nat)
    requires 0 < data < WORD
    ensures Sleep(speed, Chunk(data, 0)) == 1
  {
    hide Wait;
    InstantWait(speed, data);
  }

  lemma InstantWait(speed: nat, data: nat)
    requires 0 < data < WORD
    ensures Wait(speed, Chunk(data, 0)) == 1.0
  {
    hide AllowedBytes, Wait;
    WaitIs(speed, Chunk(data, 0));
    NothingAllowed(speed);
    Divided(data as real, data as real, 1.0);
  }

  lemma NothingAllowed(speed: nat)
    ensures AllowedBytes(speed, 0) == 0
  {
    assert 0 / 1000 * (speed / 1000) == 0;
  }

  /** The sleep is the wait to the nearest microsecond, cut off at a second. */
  lemma SleepIsWait(speed: nat, k: Chunk)
    requires k.data > 0
    ensures Wait(speed, k) <= SECOND as real ==> -0.5 <= Sleep(speed, k) as real - Wait(speed, k) <= 0.5
    ensures Wait(speed, k) >= SECOND as real ==> Sleep(speed, k) == SECOND
  {
    hide Wait;
  }

  /** A chunk that came faster than the limit allows: the thread sleeps at most as long as it took. */
  lemma FastChunk(speed: nat, k: Chunk)
    requires k.data > 0 && AllowedBytes(speed, k.t) <= k.data < WORD
    ensures Wait(speed, k) == ((k.data - AllowedBytes(speed, k.t)) * AtLeastOne(k.t)) as real / k.data as real
    ensures 0 <= Sleep(speed, k) <= AtLeastOne(k.t)
  {
    hide Round, Wait, AllowedBytes;
    var allowed := AllowedBytes(speed, k.t);
    var m := AtLeastOne(k.t);
    WaitIs(speed, k);
    assert Excess(k.data, allowed) == k.data - allowed;
    Ratio(k.data - allowed, k.data, m);
    if Wait(speed, k) < SECOND as real {
      RoundStays(Wait(speed, k), m);
    } else {
      SecondStays(m);
    }
  }

  lemma Ratio(a: nat, b: nat, m: nat)
    requires a <= b && b > 0
    ensures 0.0 <= (a * m) as real / b as real <= m as real
  {
    assert a * m <= b * m by { Ordered(a, b, m); }
    assert b as real * m as real == (b * m) as real;
    Divided((a * m) as real, b as real, m as real);
    Divided((a * m) as real, b as real, 0.0);
  }

  lemma Ordered(a: nat, b: nat, m: nat)
    requires a <= b
    ensures a * m <= b * m
  {}

  lemma SecondStays(m: nat)
    requires SECOND as real <= m as real
    ensures 0 <= Round(SECOND as real) <= m
  {}

  /** A chunk that came slower than the limit allows needs no wait, yet the difference wraps around
      and the thread sleeps for the whole second. */
  lemma SlowChunk(speed: nat, k: Chunk)
    requires 0 < k.data < AllowedBytes(speed, k.t) && AllowedBytes(speed, k.t) - k.data <= WORD - SECOND * k.data
    ensures Sleep(speed, k) == SECOND
  {
    var allowed := AllowedBytes(speed, k.t);
    var m := AtLeastOne(k.t);
    WaitIs(speed, k);
    var x := Excess(k.data, allowed);
    assert x == k.data - allowed + WORD;
    assert x >= SECOND * k.data;
    assert x * m >= x by { Grown(x, m); }
    Divided((x * m) as real, k.data as real, SECOND as real);
    assert SECOND as real * k.data as real == (SECOND * k.data) as real;
  }

  lemma Grown(x: nat, m: nat)
    requires m >= 1
    ensures x * m >= x
  {}

  /** The wait of a slow chunk, in its wrapped form: longer than the chunk took. */
  lemma SlowWait(speed: nat, k: Chunk)
    requires 0 < k.data < AllowedBytes(speed, k.t)
    ensures Wait(speed, k) * k.data as real
         == ((WORD - AllowedBytes(speed, k.t)) * AtLeastOne(k.t)) as real + AtLeastOne(k.t) as real * k.data as real
  {
    hide AllowedBytes, Wait;
    var allowed, m := AllowedBytes(speed, k.t), AtLeastOne(k.t);
    WaitIs(speed, k);
    assert allowed < WORD by { AllowedFits(speed, k.t); }
    assert Excess(k.data, allowed) == WORD - allowed + k.data;
    Divided((Excess(k.data, allowed) * m) as real, k.data as real, Wait(speed, k));
    Distributed(WORD - allowed, k.data, m);
  }

  lemma AllowedFits(speed: nat, t: nat)
    ensures AllowedBytes(speed, t) < WORD
  {}

  lemma Distributed(a: nat, b: nat, m: nat)
    ensures ((a + b) * m) as real == (a * m) as real + m as real * b as real
  {
    assert (a + b) * m == a * m + b * m;
    RealTimes(b, m);
  }

  /** A sleep is a number of microseconds: it stays within m exactly when the wait does, to the nearest one. */
  lemma SleepWithin(speed: nat, k: Chunk, m: nat)
    requires k.data > 0
    ensures Sleep(speed, k) <= m <==> m >= SECOND || Wait(speed, k) < m as real + 0.5
  {
    hide Wait;
  }

  /** The thread sleeps no longer than the chunk took if and only if the chunk came at least as fast as
      allowed, or took a second anyway, or the wrapped difference is nothing against its size. */
  lemma SleepsNoLonger(speed: nat, k: Chunk)
    requires 0 < k.data < 0x1_0000_0000_0000_0000
    ensures var allowed := AllowedBytes(speed, k.t); var m := AtLeastOne(k.t);
      Sleep(speed, k) <= m <==>
        allowed <= k.data || m >= 1000000 || 2 * ((0x1_0000_0000_0000_0000 - allowed) * m) < k.data
  {
    hide AllowedBytes, Wait, Sleep;
    var allowed, m := AllowedBytes(speed, k.t), AtLeastOne(k.t);
    if allowed <= k.data {
      FastChunk(speed, k);
    } else {
      AllowedFits(speed, k.t);
      SlowWait(speed, k);
      SleepWithin(speed, k, m);
      Within(Wait(speed, k), k.data, (WORD - allowed) * m, m);
    }
  }

  lemma Within(w: real, d: nat, x: nat, m: nat)
    requires d > 0 && w * d as real == x as real + m as real * d as real
    ensures w < m as real + 0.5 <==> 2 * x < d
  {
    var gap := w - m as real - 0.5;
    assert gap * d as real == x as real - 0.5 * d as real;
    Sign(gap, d as real);
    assert (2 * x) as real == 2.0 * x as real;
  }

  /** At the limit of the server, for chunks as the takeover thread reads them, the size of the chunk decides alone. */
  lemma ServerSleepsNoLonger(k: Chunk)
    requires 0 < k.data <= 0x10_0000 && k.t < 1000000
    ensures Sleep(SERVER_LIMIT, k) <= AtLeastOne(k.t) <==> k.t / 1000 * 7340 <= k.data
  {
    hide Sleep, AllowedBytes;
    ServerAllows(k.t);
    Grown(WORD - AllowedBytes(SERVER_LIMIT, k.t), AtLeastOne(k.t));
    SleepsNoLonger(SERVER_LIMIT, k);
  }

  lemma ServerAllows(t: nat)
    requires t < 1000000
    ensures AllowedBytes(SERVER_LIMIT, t) == t / 1000 * 7340 <= 999 * 7340
  {}

  /** 7000 bytes in a millisecond are below the limit, and the thread sleeps for a second. */
  lemma SecondForNothing()
    ensures 7340032 * 1000 >= 7000 * 1000000 && Sleep(7340032, Chunk(7000, 1000)) == 1000000
  {
    SlowChunk(SERVER_LIMIT, Chunk(7000, 1000));
  }

  /** What the wait is for, before it is rounded and cut off: the chunk and the wait together take as long
      as the limit asks for. */
  predicate WaitsEnough(speed: nat, k: Chunk)
    requires k.data > 0
  {
    (k.t as real + Wait(speed, k)) * speed as real >= (k.data * SECOND) as real
  }

  /** It does so if and only if the chunk was slow or this holds of its size, its time and what whole
      milliseconds allow. */
  lemma WaitIsEnough(speed: nat, k: Chunk)
    requires 0 < k.data < WORD
    ensures var allowed := AllowedBytes(speed, k.t);
      WaitsEnough(speed, k) <==>
        allowed > k.data
        || (k.t * k.data + (k.data - allowed) * AtLeastOne(k.t)) * speed >= k.data * k.data * SECOND
  {
    hide AllowedBytes, Wait, Sleep;
    var allowed, m := AllowedBytes(speed, k.t), AtLeastOne(k.t);
    var w := Wait(speed, k);
    if allowed > k.data {
      SlowNeedsNoWait(speed, k);
    } else {
      FastChunk(speed, k);
      Divided(((k.data - allowed) * m) as real, k.data as real, w);
      Enough(w, k.t, k.data, (k.data - allowed) * m, speed);
    }
  }

  lemma SlowNeedsNoWait(speed: nat, k: Chunk)
    requires 0 < k.data < AllowedBytes(speed, k.t)
    ensures WaitsEnough(speed, k)
  {
    hide Wait, AllowedBytes, Excess;
    SlowIsBelow(speed, k.t, k.data);
    WaitIs(speed, k);
    WaitIsNatural(Excess(k.data, AllowedBytes(speed, k.t)) * AtLeastOne(k.t), k.data);
    AlreadyEnough(k.t, Wait(speed, k), speed, k.data);
  }

  lemma WaitIsNatural(x: nat, d: nat)
    requires d > 0
    ensures x as real / d as real >= 0.0
  {
    Divided(x as real, d as real, 0.0);
  }

  lemma AlreadyEnough(t: nat, w: real, speed: nat, data: nat)
    requires w >= 0.0 && t * speed >= data * SECOND
    ensures (t as real + w) * speed as real >= (data * SECOND) as real
  {
    RealTimes(t, speed);
    More(t as real, w, speed as real);
  }

  lemma More(t: real, w: real, speed: real)
    requires w >= 0.0 && speed >= 0.0
    ensures (t + w) * speed >= t * speed
  {}

  lemma SlowIsBelow(speed: nat, t: nat, data: nat)
    requires data < AllowedBytes(speed, t)
    ensures t * speed >= data * SECOND
  {
    var a, b := t / 1000, speed / 1000;
    Wrapped(a * b);
    Ordered(1000 * a, t, 1000 * b);
    Ordered(1000 * b, speed, t);
    assert 1000 * a * (1000 * b) == SECOND * (a * b);
    assert t * (1000 * b) == 1000 * b * t && speed * t == t * speed;
  }

  lemma Wrapped(n: nat)
    ensures n % WORD <= n
  {}

  lemma Enough(w: real, t: nat, d: nat, x: nat, speed: nat)
    requires d > 0 && w * d as real == x as real
    ensures (t as real + w) * speed as real >= (d * SECOND) as real <==> (t * d + x) * speed >= d * d * SECOND
  {
    var gap := (t as real + w) * speed as real - (d * SECOND) as real;
    RealTimes(t, d);
    RealTimes(t * d + x, speed);
    RealTimes(d * SECOND, d);
    assert d * SECOND * d == d * d * SECOND;
    calc {
      gap * d as real;
      (t as real * d as real + w * d as real) * speed as real - (d * SECOND) as real * d as real;
      ((t * d + x) * speed) as real - (d * d * SECOND) as real;
    }
    Sign(gap, d as real);
  }

  /** The sleep of a fast chunk, by its whole microseconds. */
  lemma SleepAtLeast(speed: nat, k: Chunk, n: nat)
    requires 0 < k.data < WORD && AllowedBytes(speed, k.t) <= k.data
    ensures Sleep(speed, k) >= n <==>
            n == 0
            || (n <= SECOND && (2 * n - 1) * k.data <= 2 * ((k.data - AllowedBytes(speed, k.t)) * AtLeastOne(k.t)))
  {
    hide AllowedBytes, Wait, Sleep;
    SleepBounds(speed, k);
    if n > 0 {
      FastChunk(speed, k);
      SleepWithin(speed, k, n - 1);
      HalfBelow(Wait(speed, k), k.data, (k.data - AllowedBytes(speed, k.t)) * AtLeastOne(k.t), n);
    }
  }

  lemma HalfBelow(w: real, d: nat, x: nat, n: nat)
    requires d > 0 && w == x as real / d as real && n > 0
    ensures w < (n - 1) as real + 0.5 <==> 2 * x < (2 * n - 1) * d
  {
    Divided(x as real, d as real, w);
    var gap := w - ((n - 1) as real + 0.5);
    RealTimes(2 * n - 1, d);
    assert gap * d as real == x as real - (2 * n - 1) as real * d as real * 0.5;
    Sign(gap, d as real);
  }

  /** What the sleep is for: the chunk and the sleep together take as long as the limit asks for. */
  predicate LimitKept(speed: nat, k: Chunk) {
    (k.t + Sleep(speed, k)) * speed >= k.data * SECOND
  }

  /** The least sleep that keeps to the limit. */
  function Needed(speed: nat, k: Chunk): nat
    requires speed > 0
  {
    if k.t * speed >= k.data * SECOND then 0 else (k.data * SECOND - k.t * speed + speed - 1) / speed
  }

  lemma NeededIsLeast(speed: nat, k: Chunk, n: nat)
    requires speed > 0
    ensures (k.t + n) * speed >= k.data * SECOND <==> n >= Needed(speed, k)
  {
    var short := k.data * SECOND - k.t * speed;
    assert (k.t + n) * speed == k.t * speed + n * speed;
    if short > 0 {
      RoundedUp(short, speed, n);
    } else {
      assert n * speed >= 0;
    }
  }

  lemma RoundedUp(x: nat, speed: nat, n: nat)
    requires speed > 0
    ensures n * speed >= x <==> n >= (x + speed - 1) / speed
  {
    var q := (x + speed - 1) / speed;
    assert q * speed <= x + speed - 1 < q * speed + speed by { DivisionIs(x + speed - 1, speed); }
    if n >= q {
      Ordered(q, n, speed);
    } else {
      Ordered(n + 1, q, speed);
      assert (n + 1) * speed == n * speed + speed;
    }
  }

  lemma DivisionIs(x: nat, d: nat)
    requires d > 0
    ensures x / d * d <= x < x / d * d + d
  {
    assert x == x / d * d + x % d;
  }

  lemma AllowsWithSpeed(speed: nat, t: nat)
    ensures AllowedBytes(speed, t) > 0 ==> speed > 0
  {}

  /** A slow chunk needs no sleep at all, and yet gets some. */
  lemma SlowSleeps(speed: nat, k: Chunk)
    requires 0 < k.data < AllowedBytes(speed, k.t)
    ensures speed > 0 && Needed(speed, k) == 0 && Sleep(speed, k) > 0
  {
    hide AllowedBytes, Wait, Sleep;
    AllowsWithSpeed(speed, k.t);
    SlowIsBelow(speed, k.t, k.data);
    AllowedFits(speed, k.t);
    SleepBounds(speed, k);
    SleepWithin(speed, k, 0);
    SlowWait(speed, k);
    LongerThan(Wait(speed, k), k.data, (WORD - AllowedBytes(speed, k.t)) * AtLeastOne(k.t), AtLeastOne(k.t));
  }

  lemma LongerThan(w: real, d: nat, x: nat, m: nat)
    requires d > 0 && m >= 1 && w * d as real == x as real + m as real * d as real
    ensures w >= 1.0
  {
    var gap := w - m as real;
    assert gap * d as real == x as real;
    Sign(gap, d as real);
  }

  /** The thread keeps a chunk to the limit if and only if the chunk was slower than allowed, or the sleep
      it needs is one that its size, its time and the allowed bytes give it. */
  lemma KeepsLimit(speed: nat, k: Chunk)
    requires speed > 0 && 0 < k.data < WORD
    ensures var allowed, n := AllowedBytes(speed, k.t), Needed(speed, k);
      LimitKept(speed, k) <==>
        allowed > k.data || n == 0
        || (n <= SECOND && (2 * n - 1) * k.data <= 2 * ((k.data - allowed) * AtLeastOne(k.t)))
  {
    hide AllowedBytes, Sleep, Needed;
    var n := Needed(speed, k);
    SleepBounds(speed, k);
    NeededIsLeast(speed, k, Sleep(speed, k));
    if AllowedBytes(speed, k.t) > k.data {
      SlowSleeps(speed, k);
    } else {
      SleepAtLeast(speed, k, n);
    }
  }

  /** It sleeps longer than the limit asks for if and only if the chunk was slower than allowed, or the same
      gives it a microsecond more. */
  lemma SleepsTooLong(speed: nat, k: Chunk)
    requires speed > 0 && 0 < k.data < WORD
    ensures var allowed, n := AllowedBytes(speed, k.t), Needed(speed, k);
      Sleep(speed, k) > n <==>
        allowed > k.data
        || (n < SECOND && (2 * n + 1) * k.data <= 2 * ((k.data - allowed) * AtLeastOne(k.t)))
  {
    hide AllowedBytes, Sleep, Needed;
    if AllowedBytes(speed, k.t) > k.data {
      SlowSleeps(speed, k);
    } else {
      SleepAtLeast(speed, k, Needed(speed, k) + 1);
    }
  }

  /** A limit of nothing is never kept. */
  lemma NoSpeed(k: Chunk)
    requires k.data > 0
    ensures !LimitKept(0, k)
  {}

  /** Chunks that are possible under the server: one sleeps for less than the limit asks, one for more than
      twice as long, and for two the rounding to whole microseconds decides, once each way. */
  lemma TooLittleAndTooMuch()
    ensures Sleep(SERVER_LIMIT, Chunk(20000, 2000)) == 532 && !LimitKept(SERVER_LIMIT, Chunk(20000, 2000))
    ensures Sleep(SERVER_LIMIT, Chunk(10000, 999)) == 999 && Needed(SERVER_LIMIT, Chunk(10000, 999)) == 364
    ensures WaitsEnough(SERVER_LIMIT, Chunk(592364, 72847)) && !LimitKept(SERVER_LIMIT, Chunk(592364, 72847))
    ensures !WaitsEnough(SERVER_LIMIT, Chunk(697501, 92093)) && LimitKept(SERVER_LIMIT, Chunk(697501, 92093))
  {
    SleepIs(20000, 2000, 14680, 532);
    SleepIs(10000, 999, 0, 999);
    SleepIs(592364, 72847, 528480, 7856);
    SleepIs(697501, 92093, 675280, 2934);
    WaitIsEnough(SERVER_LIMIT, Chunk(592364, 72847));
    WaitIsEnough(SERVER_LIMIT, Chunk(697501, 92093));
  }

  lemma SleepIs(data: nat, t: nat, allowed: nat, n: nat)
    requires 0 < data < WORD && t > 0 && n < SECOND && allowed == AllowedBytes(SERVER_LIMIT, t) <= data
    requires (2 * n - 1) * data <= 2 * ((data - allowed) * t) < (2 * n + 1) * data
    ensures Sleep(SERVER_LIMIT, Chunk(data, t)) == n
  {
    hide AllowedBytes, Sleep;
    SleepBounds(SERVER_LIMIT, Chunk(data, t));
    SleepAtLeast(SERVER_LIMIT, Chunk(data, t), n);
    SleepAtLeast(SERVER_LIMIT, Chunk(data, t), n + 1);
  }

  /** Against what whole milliseconds allow, chunk and wait together should take t * data / allowed.
      They never take longer, and take as long only if the chunk was as fast as allowed. */
  lemma WaitsTooLittle(speed: nat, k: Chunk)
    requires k.t > 0 && k.data > 0 && AllowedBytes(speed, k.t) <= k.data < WORD
    ensures var allowed := AllowedBytes(speed, k.t) as real;
      var needed := k.t as real * k.data as real;
      && (k.t as real + Wait(speed, k)) * allowed <= needed
      && ((k.t as real + Wait(speed, k)) * allowed == needed <==> AllowedBytes(speed, k.t) == k.data)
  {
    hide Wait, AllowedBytes, Sleep;
    FastChunk(speed, k);
    var a, d, t := AllowedBytes(speed, k.t) as real, k.data as real, k.t as real;
    var w, x := Wait(speed, k), (k.data - AllowedBytes(speed, k.t)) as real;
    assert w * d == x * t by {
      Divided(((k.data - AllowedBytes(speed, k.t)) * k.t) as real, d, w);
      RealTimes(k.data - AllowedBytes(speed, k.t), k.t);
    }
    Quadratic(a, d, t, w, x);
  }

  lemma Positive(x: real, y: real)
    requires x > 0.0 && y > 0.0
    ensures x * y > 0.0
  {}

  lemma Sign(x: real, d: real)
    requires d > 0.0
    ensures (x * d > 0.0 <==> x > 0.0) && (x * d == 0.0 <==> x == 0.0)
  {}

  lemma RealTimes(a: nat, b: nat)
    ensures (a * b) as real == a as real * b as real
  {}

  lemma Quadratic(a: real, d: real, t: real, w: real, x: real)
    requires x >= 0.0 && d > 0.0 && t > 0.0 && x == d - a && w * d == x * t
    ensures (t + w) * a <= t * d
    ensures (t + w) * a == t * d <==> x == 0.0
  {
    var gap := t * d - (t + w) * a;
    calc {
      gap * d;
      t * d * d - t * d * a - w * d * a;
      t * d * x - x * t * a;
      t * x * d - t * x * a;
      t * x * x;
    }
    if x > 0.0 {
      Positive(t, x);
      Positive(t * x, x);
    }
    Sign(gap, d);
  }

  /** So when no bytes are lost to whole milliseconds, the limit is kept only by chunks that were at it. */
  lemma WaitsTooLittleForLimit(speed: nat, k: Chunk)
    requires k.t > 0 && 0 < k.data < WORD && AllowedBytes(speed, k.t) <= k.data
    requires AllowedBytes(speed, k.t) * SECOND == speed * k.t
    ensures WaitsEnough(speed, k) <==> AllowedBytes(speed, k.t) == k.data
  {
    hide Wait, AllowedBytes, Sleep;
    WaitsTooLittle(speed, k);
    var t, w := k.t as real, Wait(speed, k);
    RealTimes(AllowedBytes(speed, k.t), SECOND);
    RealTimes(speed, k.t);
    RealTimes(k.data, SECOND);
    AtLimit(AllowedBytes(speed, k.t) as real, k.data as real, t, w, speed as real);
  }

  lemma AtLimit(a: real, d: real, t: real, w: real, speed: real)
    requires t > 0.0 && a * SECOND as real == speed * t
    ensures (t + w) * speed >= d * SECOND as real <==> (t + w) * a >= t * d
  {
    var gap := (t + w) * speed - d * SECOND as real;
    calc {
      gap * t;
      (t + w) * (speed * t) - d * SECOND as real * t;
      (t + w) * (a * SECOND as real) - d * SECOND as real * t;
      ((t + w) * a - t * d) * SECOND as real;
    }
    Sign(gap, t);
    Sign((t + w) * a - t * d, SECOND as real);
  }

  function TotalSleep(speed: nat, chunks: seq<Chunk>): int {
    if chunks == [] then 0 else Sleep(speed, chunks[0]) + TotalSleep(speed, chunks[1..])
  }

  function TotalTime(chunks: seq<Chunk>): nat {
    if chunks == [] then 0 else AtLeastOne(chunks[0].t) + TotalTime(chunks[1..])
  }

  /** Over a whole run of fast chunks the thread sleeps no longer than it worked. */
  lemma {:induction false} TotalBound(speed: nat, chunks: seq<Chunk>)
    requires forall k | k in chunks :: k.data > 0 && AllowedBytes(speed, k.t) <= k.data < WORD
    ensures 0 <= TotalSleep(speed, chunks) <= TotalTime(chunks)
  {
    hide Sleep, AllowedBytes;
    if chunks != [] {
      FastChunk(speed, chunks[0]);
      TotalBound(speed, chunks[1..]);
    }
  }

  /** A takeover thread whose stream has broken down sleeps a second for every empty read. */
  lemma {:induction false} BrokenTakeover(speed: nat, chunks: seq<Chunk>)
    requires forall k | k in chunks :: k.data == 0
    ensures TotalSleep(speed, chunks) == 1000000 * |chunks|
  {
    hide Sleep;
    if chunks != [] {
      assert chunks[0] == Chunk(0, chunks[0].t);
      EmptyChunk(speed, chunks[0].t);
      BrokenTakeover(speed, chunks[1..]);
    }
  }
}
