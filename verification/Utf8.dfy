/** The UTF-8 state table (include/validate_utf8.h) against section 4 of RFC 3629. */
module Utf8 {
  import opened Bytes

  const UTF8_VALID: nat := 0x000
  const UTF8_INVALID: nat := 0x800

  // The rows of the table, named as in the source: the offset of a row is the state.
  const S0: nat := 0x000
  const T1: nat := 0x100
  const T2: nat := 0x200
  const S1: nat := 0x300
  const S2: nat := 0x400
  const T3: nat := 0x500
  const S3: nat := 0x600
  const S4: nat := 0x700
  const ER: nat := 0x800

  predicate IsState(q: nat) {
    q < 0x800 && q % 0x100 == 0
  }

  /** The entries of the 2048-entry table, one run of equal entries at a time. */
  function Entry(index: nat): (q: nat)
    requires index < 2048
    ensures IsState(q) || q == UTF8_INVALID
  {
    var ch := index % 0x100;
    if index < T1 then
      if ch <= 0x7F then S0
      else if ch <= 0xC1 then ER
      else if ch <= 0xDF then T1
      else if ch == 0xE0 then S1
      else if ch <= 0xEC then T2
      else if ch == 0xED then S2
      else if ch <= 0xEF then T2
      else if ch == 0xF0 then S3
      else if ch <= 0xF3 then T3
      else if ch == 0xF4 then S4
      else ER
    else if index < T2 then if 0x80 <= ch <= 0xBF then S0 else ER
    else if index < S1 then if 0x80 <= ch <= 0xBF then T1 else ER
    else if index < S2 then if 0xA0 <= ch <= 0xBF then T1 else ER
    else if index < T3 then if 0x80 <= ch <= 0x9F then T1 else ER
    else if index < S3 then if 0x80 <= ch <= 0xBF then T2 else ER
    else if index < S4 then if 0x90 <= ch <= 0xBF then T2 else ER
    else if 0x80 <= ch <= 0x8F then T2 else ER
  }

  /** The state after `s`, stopping at the first invalid octet as both callers do. */
  function RunTable(q: nat, s: seq<byte>): (r: nat)
    requires IsState(q)
    ensures IsState(r) || r == UTF8_INVALID
    decreases |s|
  {
    if s == [] then q
    else
      var next := Entry(q + s[0]);
      if next == UTF8_INVALID then UTF8_INVALID else RunTable(next, s[1..])
  }

  /** What the send and the receive loops accept as text. */
  predicate Accepts(s: seq<byte>) {
    RunTable(UTF8_VALID, s) != UTF8_INVALID
  }

  /** The loop at src/websocket.c:282-297 and src/websocket.c:624-638. */
  method Check(s: seq<byte>) returns (ok: bool)
    ensures ok == Accepts(s)
  {
    var utf8State := UTF8_VALID;
    var i := 0;
    while i < |s|
      invariant i <= |s| && IsState(utf8State)
      invariant RunTable(UTF8_VALID, s) == RunTable(utf8State, s[i..])
    {
      var ch := s[i];
      assert s[i..][1..] == s[i + 1..];
      utf8State := Entry(utf8State + ch);
      if utf8State == UTF8_INVALID {
        return false;
      }
      i := i + 1;
    }
    return true;
  }

  // ----- the grammar -----

  predicate IsTail(b: byte) {
    0x80 <= b <= 0xBF
  }

  predicate IsUtf8Two(c: seq<byte>) {
    |c| == 2 && 0xC2 <= c[0] <= 0xDF && IsTail(c[1])
  }

  predicate IsUtf8Three(c: seq<byte>) {
    && |c| == 3
    && IsTail(c[2])
    && ((c[0] == 0xE0 && 0xA0 <= c[1] <= 0xBF)
        || (0xE1 <= c[0] <= 0xEC && IsTail(c[1]))
        || (c[0] == 0xED && 0x80 <= c[1] <= 0x9F)
        || (0xEE <= c[0] <= 0xEF && IsTail(c[1])))
  }

  predicate IsUtf8Four(c: seq<byte>) {
    && |c| == 4
    && IsTail(c[2])
    && IsTail(c[3])
    && ((c[0] == 0xF0 && 0x90 <= c[1] <= 0xBF)
        || (0xF1 <= c[0] <= 0xF3 && IsTail(c[1]))
        || (c[0] == 0xF4 && 0x80 <= c[1] <= 0x8F))
  }

  /** UTF8-char: one of UTF8-1, UTF8-2, UTF8-3 and UTF8-4. */
  predicate IsChar(c: seq<byte>) {
    (|c| == 1 && c[0] <= 0x7F) || IsUtf8Two(c) || IsUtf8Three(c) || IsUtf8Four(c)
  }

  /** UTF8-octets: any number of characters. */
  ghost predicate IsOctets(s: seq<byte>)
    decreases |s|
  {
    s == [] || exists n :: 0 < n <= |s| && IsChar(s[..n]) && IsOctets(s[n..])
  }

  /** What is still missing, in state `q`, to finish the character that was begun. */
  function Completion(q: nat): seq<byte>
    requires IsState(q)
  {
    if q == S0 then []
    else if q == T1 then [0x80]
    else if q == T2 then [0x80, 0x80]
    else if q == S1 then [0xA0, 0x80]
    else if q == S2 then [0x80, 0x80]
    else if q == T3 then [0x80, 0x80, 0x80]
    else if q == S3 then [0x90, 0x80, 0x80]
    else [0x80, 0x80, 0x80]
  }

  lemma {:induction false} RunTableAppend(q: nat, a: seq<byte>, b: seq<byte>)
    requires IsState(q)
    ensures var r := RunTable(q, a);
            RunTable(q, a + b) == if r == UTF8_INVALID then UTF8_INVALID else RunTable(r, b)
    decreases |a|
  {
    if a == [] {
      assert a + b == b;
    } else {
      assert (a + b)[1..] == a[1..] + b;
      var next := Entry(q + a[0]);
      if next != UTF8_INVALID {
        RunTableAppend(next, a[1..], b);
      }
    }
  }

  /** Two octets that leave the table in state `q`, with more to come. */
  lemma LongChar(c: seq<byte>) returns (q: nat)
    requires IsUtf8Three(c) || IsUtf8Four(c)
    ensures IsState(Entry(c[0])) && q == Entry(Entry(c[0]) + c[1])
    ensures q == if |c| == 3 then T1 else T2
  {
    q := Entry(Entry(c[0]) + c[1]);
  }

  /** One octet that keeps the table going. */
  lemma RunOne(q: nat, b: byte, s: seq<byte>)
    requires IsState(q) && IsState(Entry(q + b))
    ensures RunTable(q, [b] + s) == RunTable(Entry(q + b), s)
  {
  }

  /** From `T1` one tail octet leads back to the start, from `T2` two do. */
  lemma Tails(c: seq<byte>, s: seq<byte>)
    requires 1 <= |c| <= 2 && forall i :: 0 <= i < |c| ==> IsTail(c[i])
    ensures RunTable(if |c| == 1 then T1 else T2, c + s) == RunTable(S0, s)
  {
    if |c| == 1 {
      assert c + s == [c[0]] + s;
      RunOne(T1, c[0], s);
    } else {
      assert c + s == [c[0]] + ([c[1]] + s);
      RunOne(T2, c[0], [c[1]] + s);
      RunOne(T1, c[1], s);
    }
  }

  lemma TwoRun(first: byte, second: byte, s: seq<byte>)
    requires 0xC2 <= first <= 0xDF && IsTail(second)
    ensures RunTable(S0, [first] + ([second] + s)) == RunTable(S0, s)
  {
    RunOne(S0, first, [second] + s);
    RunOne(T1, second, s);
  }

  lemma LongRun(c: seq<byte>, s: seq<byte>)
    requires IsUtf8Three(c) || IsUtf8Four(c)
    ensures RunTable(S0, [c[0]] + ([c[1]] + (c[2..] + s))) == RunTable(S0, s)
  {
    var q := LongChar(c);
    var t := c[2..] + s;
    RunOne(S0, c[0], [c[1]] + t);
    RunOne(Entry(c[0]), c[1], t);
    Tails(c[2..], s);
  }

  /** The table accepts a character followed by `s` exactly as it accepts `s`. */
  lemma CharRun(c: seq<byte>, s: seq<byte>)
    requires IsChar(c)
    ensures RunTable(S0, c + s) == RunTable(S0, s)
  {
    if |c| == 1 {
      assert c + s == [c[0]] + s;
      RunOne(S0, c[0], s);
    } else if |c| == 2 {
      assert c + s == [c[0]] + ([c[1]] + s);
      TwoRun(c[0], c[1], s);
    } else {
      assert c + s == [c[0]] + ([c[1]] + (c[2..] + s));
      LongRun(c, s);
    }
  }

  /** Only a tail octet leads from `T1`, `T2` or `T3` to the next of the four states. */
  lemma TailStep(q: nat, s: seq<byte>)
    requires q == T1 || q == T2 || q == T3
    requires RunTable(q, s) == S0
    ensures s != [] && IsTail(s[0])
    ensures RunTable(if q == T1 then S0 else if q == T2 then T1 else T2, s[1..]) == S0
  {
  }

  /** Only the octets of its row lead from `S1`, `S2`, `S3` or `S4` to the tail states. */
  lemma SecondStep(q: nat, s: seq<byte>)
    requires q == S1 || q == S2 || q == S3 || q == S4
    requires RunTable(q, s) == S0
    ensures s != []
    ensures q == S1 ==> 0xA0 <= s[0] <= 0xBF
    ensures q == S2 ==> 0x80 <= s[0] <= 0x9F
    ensures q == S3 ==> 0x90 <= s[0] <= 0xBF
    ensures q == S4 ==> 0x80 <= s[0] <= 0x8F
    ensures RunTable(if q == S1 || q == S2 then T1 else T2, s[1..]) == S0
  {
  }

  /** A run that ends where it began started with a character. */
  lemma FirstChar(s: seq<byte>) returns (n: nat)
    requires s != [] && RunTable(S0, s) == S0
    ensures 0 < n <= |s| && IsChar(s[..n]) && RunTable(S0, s[n..]) == S0
  {
    var q, t := Entry(s[0]), s[1..];
    assert RunTable(S0, s) == RunTable(q, t);
    if q == S0 {
      n := 1;
    } else if q == T1 {
      TailStep(T1, t);
      n := 2;
      assert t[1..] == s[2..];
    } else {
      n := RestOfLongChar(q, t);
      assert t[n - 1..] == s[n..];
    }
  }

  /** The second octet is the one the row asks for, and the others are tails. */
  lemma RestOfLongChar(q: nat, t: seq<byte>) returns (n: nat)
    requires IsState(q) && q != S0 && q != T1 && RunTable(q, t) == S0
    ensures n == if q == T2 || q == S1 || q == S2 then 3 else 4
    ensures n - 1 <= |t| && RunTable(S0, t[n - 1..]) == S0
    ensures q == T2 || q == T3 ==> IsTail(t[0])
    ensures q == S1 ==> 0xA0 <= t[0] <= 0xBF
    ensures q == S2 ==> 0x80 <= t[0] <= 0x9F
    ensures q == S3 ==> 0x90 <= t[0] <= 0xBF
    ensures q == S4 ==> 0x80 <= t[0] <= 0x8F
    ensures IsTail(t[1]) && (n == 4 ==> IsTail(t[2]))
  {
    if q == T2 || q == T3 {
      TailStep(q, t);
    } else {
      SecondStep(q, t);
    }
    if q == T2 || q == S1 || q == S2 {
      n := 3;
      TailStep(T1, t[1..]);
      assert t[1..][1..] == t[2..];
    } else {
      n := 4;
      TailStep(T2, t[1..]);
      TailStep(T1, t[1..][1..]);
      assert t[1..][1..][1..] == t[3..];
    }
  }

  lemma {:induction false} AcceptedAreOctets(s: seq<byte>)
    requires RunTable(S0, s) == S0
    ensures IsOctets(s)
    decreases |s|
  {
    if s != [] {
      var n := FirstChar(s);
      AcceptedAreOctets(s[n..]);
    }
  }

  lemma {:induction false} OctetsAreAccepted(s: seq<byte>)
    requires IsOctets(s)
    ensures RunTable(S0, s) == S0
    decreases |s|
  {
    hide IsChar;
    if s != [] {
      var n :| 0 < n <= |s| && IsChar(s[..n]) && IsOctets(s[n..]);
      OctetsAreAccepted(s[n..]);
      assert s == s[..n] + s[n..];
      CharRun(s[..n], s[n..]);
    }
  }

  /** The table ends in its start state exactly on UTF8-octets. */
  lemma TableDecidesOctets(s: seq<byte>)
    ensures RunTable(UTF8_VALID, s) == UTF8_VALID <==> IsOctets(s)
  {
    if RunTable(S0, s) == S0 {
      AcceptedAreOctets(s);
    }
    if IsOctets(s) {
      OctetsAreAccepted(s);
    }
  }

  /** The missing octets lead back to the start. */
  lemma {:induction false} CompletionCompletes(q: nat)
    requires IsState(q)
    ensures RunTable(q, Completion(q)) == S0
    decreases |Completion(q)|
  {
    hide Entry;
    if q != S0 {
      var first := Completion(q)[0];
      var next := CompletionStep(q);
      CompletionCompletes(next);
      RunOne(q, first, Completion(next));
    }
  }

  /** The first missing octet leads to a state that misses the others. */
  lemma CompletionStep(q: nat) returns (next: nat)
    requires IsState(q) && q != S0
    ensures Completion(q) != [] && IsState(next) && next == Entry(q + Completion(q)[0])
    ensures Completion(q) == [Completion(q)[0]] + Completion(next)
  {
    next := Entry(q + Completion(q)[0]);
  }

  /**
   * What the send and the receive loops let through is exactly the prefixes of UTF8-octets: an
   * unfinished character at the end of the payload is not an error there.
   */
  lemma AcceptsExactlyPrefixes(s: seq<byte>)
    ensures Accepts(s) <==> exists t: seq<byte> :: IsOctets(s + t)
  {
    var q := RunTable(UTF8_VALID, s);
    if Accepts(s) {
      var t := Completion(q);
      CompletionCompletes(q);
      RunTableAppend(UTF8_VALID, s, t);
      TableDecidesOctets(s + t);
    }
    if t: seq<byte> :| IsOctets(s + t) {
      TableDecidesOctets(s + t);
      RunTableAppend(UTF8_VALID, s, t);
    }
  }
}
