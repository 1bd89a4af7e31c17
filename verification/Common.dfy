/** Datatypes and clock arithmetic shared by every module of the model. */
module Common {

  datatype Option<+T> = None | Some(value: T)

  datatype Result<+T, +E> = Success(value: T) | Failure(error: E)

  function Abs(x: real): (r: real)
    ensures 0.0 <= r && x <= r && -x <= r && (r == x || r == -x)
  {
    if x < 0.0 then -x else x
  }

  function Reverse<T>(s: seq<T>): (r: seq<T>)
    ensures |r| == |s|
    ensures forall i :: 0 <= i < |s| ==> r[i] == s[|s| - 1 - i]
  {
    seq(|s|, i requires 0 <= i < |s| => s[|s| - 1 - i])
  }

  lemma {:induction false} ReverseKeepsElements<T>(s: seq<T>)
    ensures multiset(Reverse(s)) == multiset(s)
  {
    if s != [] {
      var most, last := s[..|s| - 1], s[|s| - 1];
      ReverseKeepsElements(most);
      assert Reverse(s) == [last] + Reverse(most);
      assert s == most + [last];
    }
  }

  lemma SplitLast<T>(a: seq<T>, b: seq<T>)
    requires b != []
    ensures b == b[..|b| - 1] + [b[|b| - 1]]
    ensures a + b == (a + b[..|b| - 1]) + [b[|b| - 1]]
  {
  }

  lemma Regroup<T>(a: seq<T>, b: seq<T>, c: seq<T>)
    ensures (a + b) + c == a + (b + c)
  {
  }

  function AsciiLower(s: string): string {
    seq(|s|, i requires 0 <= i < |s| => if 'A' <= s[i] <= 'Z' then (s[i] as int + 32) as char else s[i])
  }

  /** strings.ToLower, as far as it can give ASCII text: besides the ASCII capitals, the Kelvin sign and the
      capital I with a dot have ASCII letters for their small letters. Other text stays as it is. */
  function ToLower(s: string): string {
    AsciiLower(seq(|s|, i requires 0 <= i < |s| =>
      if s[i] == '\U{212A}' then 'k' else if s[i] == '\U{130}' then 'i' else s[i]))
  }

  // ----- time: an instant is the number of nanoseconds since the Unix epoch

  const SECOND: int := 1_000_000_000

  /** The zero time.Time, 1 January of year 1, for which IsZero holds. */
  const ZERO_TIME: int := -62_135_596_800 * SECOND

  const MAX_DURATION: int := 0x7FFF_FFFF_FFFF_FFFF
  const MIN_DURATION: int := -0x8000_0000_0000_0000

  /** time.Time.Unix: whole seconds, rounded towards the past. */
  function UnixSeconds(t: int): (s: int)
    ensures s * SECOND <= t < (s + 1) * SECOND
  {
    t / SECOND
  }

  /** An instant written in RFC 3339 without fractions and parsed back. */
  function FloorToSecond(t: int): (f: int)
    ensures f <= t < f + SECOND && f % SECOND == 0
  {
    t / SECOND * SECOND
  }

  /** A timestamptz column keeps whole microseconds. */
  function Microseconds(t: int): (m: int)
    ensures m <= t < m + 1000 && m % 1000 == 0
  {
    t / 1000 * 1000
  }

  /** time.Time.Sub: a 64-bit duration that saturates at both ends. */
  function Sub(later: int, earlier: int): (d: int)
    ensures MIN_DURATION <= d <= MAX_DURATION
    ensures d > 0 <==> later > earlier
    ensures MIN_DURATION <= later - earlier <= MAX_DURATION ==> d == later - earlier
  {
    if later - earlier > MAX_DURATION then MAX_DURATION
    else if later - earlier < MIN_DURATION then MIN_DURATION
    else later - earlier
  }

  /** time.Duration.Seconds, over exact reals. */
  function Seconds(d: int): (s: real)
    ensures s * (SECOND as real) == d as real
    ensures s > 0.0 <==> d > 0
  {
    d as real / SECOND as real
  }
}
