/**
 * `parse_date`: try four `strptime` formats in a fixed order, rewriting a
 * colon in the UTC offset before every attempt, and fall back to the Unix
 * epoch when none of them parses.
 */
module DateParse {
  import opened Wrappers

  /**
   * A `datetime` as `strptime` returns it. `utcOffset` is the offset from UTC
   * in seconds, None for a naive value.
   */
  datatype DateTime = DateTime(
    year: int, month: int, day: int,
    hour: int, minute: int, second: int, microsecond: int,
    utcOffset: Option<int>)

  /** The sentinel returned when no format parses: 1970-01-01 00:00 UTC. */
  const Epoch: DateTime := DateTime(1970, 1, 1, 0, 0, 0, 0, Some(0))

  /** The formats, in the order they are tried. */
  const Formats: seq<string> := [
    "%a, %d %b %Y %H:%M:%S %z", "%a, %d %b %Y %H:%M:%S %Z",
    "%Y-%m-%dT%H:%M:%S%z", "%Y-%m-%dT%H:%M:%S.%f%z"
  ]

  /**
   * The two library calls the parser depends on, `datetime.strptime` and
   * `datetime.isoformat`. Their semantics are not part of the model.
   */
  datatype DateLib = DateLib(
    strptime: (string, string) -> Option<DateTime>,
    isoformat: DateTime -> string)

  /**
   * Python's `":" == s[-3:-2]`. The slice is empty when `s` has fewer than
   * three characters, so the test is false there.
   */
  predicate HasOffsetColon(s: string) {
    |s| >= 3 && s[|s| - 3] == ':'
  }

  /** `s[:-3] + s[-2:]` under that test: delete the third character from the end. */
  function StripOffsetColon(s: string): (r: string)
    ensures HasOffsetColon(s) ==>
      && |r| == |s| - 1
      && (forall i :: 0 <= i < |s| - 3 ==> r[i] == s[i])
      && (forall i :: |s| - 3 <= i < |r| ==> r[i] == s[i + 1])
      && multiset(r) + multiset{':'} == multiset(s)
    ensures !HasOffsetColon(s) ==> r == s
  {
    if HasOffsetColon(s) then
      var r := s[..|s| - 3] + s[|s| - 2..];
      assert s == s[..|s| - 3] + [s[|s| - 3]] + s[|s| - 2..];
      r
    else s
  }

  /** The string after `n` rewrites: what the `n`-th attempt sees. */
  function Rewritten(s: string, n: nat): (r: string)
    ensures |s| - n <= |r| <= |s|
  {
    if n == 0 then s else StripOffsetColon(Rewritten(s, n - 1))
  }

  /** The outcome of the attempt with format number `k` (counting from 0). */
  function Attempt(lib: DateLib, s: string, k: nat): Option<DateTime>
    requires k < |Formats|
  {
    lib.strptime(Rewritten(s, k + 1), Formats[k])
  }

  /** The result of the attempts from format number `i` on. */
  function ParseFrom(lib: DateLib, s: string, i: nat): DateTime
    requires i <= |Formats|
    decreases |Formats| - i
  {
    if i == |Formats| then Epoch
    else
      match Attempt(lib, s, i)
      case Some(d) => d
      case None => ParseFrom(lib, s, i + 1)
  }

  /**
   * From format number `i` on, the result is the first attempt that succeeds,
   * or `Epoch` when all of them fail.
   */
  lemma {:induction false} ParseFromFirstSuccess(lib: DateLib, s: string, i: nat)
    requires i <= |Formats|
    ensures var dt := ParseFrom(lib, s, i);
      || (exists k :: i <= k < |Formats| && Attempt(lib, s, k) == Some(dt)
                      && forall j :: i <= j < k ==> Attempt(lib, s, j).None?)
      || (dt == Epoch && forall k :: i <= k < |Formats| ==> Attempt(lib, s, k).None?)
    decreases |Formats| - i
  {
    if i < |Formats| && Attempt(lib, s, i).None? {
      ParseFromFirstSuccess(lib, s, i + 1);
      var dt := ParseFrom(lib, s, i);
      if exists k :: i + 1 <= k < |Formats| && Attempt(lib, s, k) == Some(dt)
                      && forall j :: i + 1 <= j < k ==> Attempt(lib, s, j).None? {
        var k :| i + 1 <= k < |Formats| && Attempt(lib, s, k) == Some(dt)
                 && forall j :: i + 1 <= j < k ==> Attempt(lib, s, j).None?;
        assert forall j :: i <= j < k ==> Attempt(lib, s, j).None?;
      }
    }
  }

  /**
   * The value `parse_date(s)` returns: the first successful `strptime`, in
   * format order, on the cumulatively rewritten string; otherwise `Epoch`.
   */
  function ParsedDate(lib: DateLib, s: string): (dt: DateTime)
    ensures
      || (exists k :: 0 <= k < |Formats| && Attempt(lib, s, k) == Some(dt)
                      && forall j :: 0 <= j < k ==> Attempt(lib, s, j).None?)
      || (dt == Epoch && forall k :: 0 <= k < |Formats| ==> Attempt(lib, s, k).None?)
  {
    ParseFromFirstSuccess(lib, s, 0);
    ParseFrom(lib, s, 0)
  }

  /** `parse_date` as written: one loop that reassigns the string it parses. */
  method ParseDate(lib: DateLib, dateString: string) returns (dt: DateTime)
    ensures dt == ParsedDate(lib, dateString)
  {
    var s := dateString;
    for i := 0 to |Formats|
      invariant s == Rewritten(dateString, i)
      invariant ParseFrom(lib, dateString, i) == ParsedDate(lib, dateString)
    {
      if HasOffsetColon(s) {
        s := s[..|s| - 3] + s[|s| - 2..];
      }
      var parsed := lib.strptime(s, Formats[i]);
      if parsed.Some? {
        return parsed.value;
      }
    }
    dt := Epoch;
  }

  /** The first success wins: the converse of ParsedDate's contract. */
  lemma ParsedDateIsFirstSuccess(lib: DateLib, s: string, k: nat)
    requires k < |Formats| && Attempt(lib, s, k).Some?
    requires forall j :: 0 <= j < k ==> Attempt(lib, s, j).None?
    ensures ParsedDate(lib, s) == Attempt(lib, s, k).value
  {
  }

  /** When every attempt fails the result is the sentinel. */
  lemma ParsedDateAllFail(lib: DateLib, s: string)
    requires forall k :: 0 <= k < |Formats| ==> Attempt(lib, s, k).None?
    ensures ParsedDate(lib, s) == Epoch
  {
  }

  /** The string never grows from one attempt to the next. */
  lemma {:induction false} RewrittenNeverGrows(s: string, m: nat, n: nat)
    requires m <= n
    ensures |Rewritten(s, n)| <= |Rewritten(s, m)|
    ensures |Rewritten(s, m)| - |Rewritten(s, n)| <= n - m
    decreases n
  {
    if m < n {
      RewrittenNeverGrows(s, m, n - 1);
    }
  }

  /** Once the test fails, the rewrite is a no-op for every later attempt. */
  lemma {:induction false} RewriteSettles(s: string, m: nat, n: nat)
    requires m <= n
    requires !HasOffsetColon(Rewritten(s, m))
    ensures Rewritten(s, n) == Rewritten(s, m)
    decreases n
  {
    if m < n {
      RewriteSettles(s, m, n - 1);
    }
  }

  /** One rewrite keeps the last two characters. */
  lemma StripKeepsLastTwo(s: string)
    requires |s| >= 2
    ensures |StripOffsetColon(s)| >= 2
    ensures StripOffsetColon(s)[|StripOffsetColon(s)| - 2..] == s[|s| - 2..]
  {
    if HasOffsetColon(s) {
      var r := StripOffsetColon(s);
      assert r[|r| - 2] == s[|s| - 2] && r[|r| - 1] == s[|s| - 1];
    }
  }

  /** The last two characters (the minutes of an offset) are never touched. */
  lemma {:induction false} RewrittenKeepsLastTwo(s: string, n: nat)
    requires |s| >= 2
    ensures |Rewritten(s, n)| >= 2
    ensures Rewritten(s, n)[|Rewritten(s, n)| - 2..] == s[|s| - 2..]
    decreases n
  {
    if n > 0 {
      RewrittenKeepsLastTwo(s, n - 1);
      StripKeepsLastTwo(Rewritten(s, n - 1));
    }
  }

  /**
   * An ISO-8601 offset written `+hh:mm` reaches every attempt as `+hhmm`:
   * the colon goes on the first rewrite and the string then stays as it is.
   */
  lemma IsoOffsetRewritten(head: string, minutes: string, k: nat)
    requires |head| >= 1 && head[|head| - 1] != ':' && |minutes| == 2
    requires k < |Formats|
    ensures Rewritten(head + ":" + minutes, k + 1) == head + minutes
  {
    var s := head + ":" + minutes;
    var t := head + minutes;
    assert HasOffsetColon(s) by {
      assert s[|s| - 3] == ':';
    }
    assert StripOffsetColon(s) == t by {
      assert s[..|s| - 3] == head;
      assert s[|s| - 2..] == minutes;
    }
    assert Rewritten(s, 1) == t;
    assert !HasOffsetColon(t) by {
      assert t[|t| - 3] == head[|head| - 1];
    }
    RewriteSettles(s, 1, k + 1);
  }

  /**
   * An RFC 1123 date whose offset is written `+hhmm` or `-hhmm` fails the
   * colon test, so every attempt sees it unchanged.
   */
  lemma RfcOffsetUnchanged(head: string, sign: char, offset: string, k: nat)
    requires |offset| == 4 && forall i :: 0 <= i < 4 ==> '0' <= offset[i] <= '9'
    ensures Rewritten(head + [sign] + offset, k) == head + [sign] + offset
  {
    var s := head + [sign] + offset;
    assert s[|s| - 3] == offset[1];
    RewriteSettles(s, 0, k);
  }
}
