/** How messages are laid out in a file and read back: each one is followed by a delimiter
    (src/millisecond_bandwidth_output.cc), on which the reader splits, dropping the last
    piece (scripts/simpleParserMsBwProtobuf.py). */
module Framing {

  type Bytes = seq<char>

  const DELIMITER: Bytes := "==END=="

  /** The delimiter occurs in `s` at `i`. */
  predicate DelimiterAt(s: Bytes, i: nat) {
    i + |DELIMITER| <= |s| && s[i..i + |DELIMITER|] == DELIMITER
  }

  /** The first occurrence from `from` on; `|s|` if there is none. */
  function First(s: Bytes, from: nat): (i: nat)
    requires from <= |s|
    ensures from <= i <= |s|
    ensures i < |s| ==> DelimiterAt(s, i)
    ensures forall j :: from <= j < i ==> !DelimiterAt(s, j)
    decreases |s| - from
  {
    if from + |DELIMITER| > |s| then |s|
    else if DelimiterAt(s, from) then from
    else First(s, from + 1)
  }

  /** bytes.split */
  function Split(s: Bytes): (pieces: seq<Bytes>)
    ensures pieces != []
    decreases |s|
  {
    var i := First(s, 0);
    if i == |s| then [s] else [s[..i]] + Split(s[i + |DELIMITER|..])
  }

  function Parse(s: Bytes): seq<Bytes> {
    var pieces := Split(s);
    pieces[..|pieces| - 1]
  }

  function Write(messages: seq<Bytes>): Bytes {
    if messages == [] then [] else messages[0] + DELIMITER + Write(messages[1..])
  }

  /** Followed by the delimiter, the message shows it for the first time at its own end. */
  predicate Clean(m: Bytes) {
    forall i :: 0 <= i < |m| ==> !DelimiterAt(m + DELIMITER, i)
  }

  predicate AllClean(messages: seq<Bytes>) {
    forall k :: 0 <= k < |messages| ==> Clean(messages[k])
  }

  // An occurrence within the first part does not depend on what follows.
  lemma SameOccurrence(s: Bytes, rest: Bytes, i: nat)
    requires i + |DELIMITER| <= |s|
    ensures DelimiterAt(s + rest, i) <==> DelimiterAt(s, i)
  {
    assert (s + rest)[i..i + |DELIMITER|] == s[i..i + |DELIMITER|];
  }

  lemma FirstAfterClean(m: Bytes, rest: Bytes)
    requires Clean(m)
    ensures First(m + DELIMITER + rest, 0) == |m|
  {
    var framed := m + DELIMITER;
    var s := framed + rest;
    var i := First(s, 0);
    assert DelimiterAt(s, |m|);
    if i < |m| {
      SameOccurrence(framed, rest, i);
    }
  }

  lemma FirstInUnclean(m: Bytes, rest: Bytes)
    requires !Clean(m)
    ensures First(m + DELIMITER + rest, 0) < |m|
  {
    var framed := m + DELIMITER;
    var i :| 0 <= i < |m| && DelimiterAt(framed, i);
    SameOccurrence(framed, rest, i);
  }

  lemma ParseClean(m: Bytes, rest: Bytes)
    requires Clean(m)
    ensures Parse(m + DELIMITER + rest) == [m] + Parse(rest)
  {
    var s := m + DELIMITER + rest;
    FirstAfterClean(m, rest);
    assert s[..|m|] == m && s[|m| + |DELIMITER|..] == rest;
    assert Split(s) == [m] + Split(rest);
  }

  lemma ParseUnclean(m: Bytes, rest: Bytes)
    requires !Clean(m)
    ensures Parse(m + DELIMITER + rest) != [] && |Parse(m + DELIMITER + rest)[0]| < |m|
  {
    var s := m + DELIMITER + rest;
    FirstInUnclean(m, rest);
    var i := First(s, 0);
    assert Split(s) == [s[..i]] + Split(s[i + |DELIMITER|..]);
  }

  /** What was written is read back, exactly when every message is clean. */
  lemma {:induction false} RoundTripIff(messages: seq<Bytes>)
    ensures Parse(Write(messages)) == messages <==> AllClean(messages)
  {
    if messages == [] {
      assert Split([]) == [[]];
    } else {
      var m, rest := messages[0], messages[1..];
      RoundTripIff(rest);
      assert messages == [m] + rest;
      assert Write(messages) == m + DELIMITER + Write(rest);
      if Clean(m) {
        ParseClean(m, Write(rest));
        assert AllClean(messages) <==> AllClean(rest) by {
          assert forall k :: 0 <= k < |rest| ==> rest[k] == messages[k + 1];
        }
        if Parse(Write(messages)) == messages {
          assert Parse(Write(rest)) == Parse(Write(messages))[1..] == rest;
        }
      } else {
        ParseUnclean(m, Write(rest));
      }
    }
  }

  lemma PartialMessage(m: Bytes, n: nat)
    requires Clean(m) && n < |m| + |DELIMITER|
    ensures Parse((m + DELIMITER)[..n]) == []
  {
    var framed := m + DELIMITER;
    var s := framed[..n];
    assert framed == s + framed[n..];
    forall i | 0 <= i < |s| ensures !DelimiterAt(s, i) {
      if i + |DELIMITER| <= |s| {
        SameOccurrence(s, framed[n..], i);
      }
    }
    assert Split(s) == [s];
  }

  /** A file cut off at any byte yields exactly the messages written in full. */
  lemma {:induction false} TruncatedFile(messages: seq<Bytes>, n: nat, k: nat)
    requires AllClean(messages) && k <= |messages| && n <= |Write(messages)|
    requires |Write(messages[..k])| <= n
    requires k < |messages| ==> n < |Write(messages[..k + 1])|
    ensures Parse(Write(messages)[..n]) == messages[..k]
    decreases |messages|
  {
    if messages == [] {
      assert Split([]) == [[]];
    } else {
      var m, rest := messages[0], messages[1..];
      var framed := m + DELIMITER;
      assert Write(messages) == framed + Write(rest);
      if k == 0 {
        assert messages[..1] == [m] && messages[..1][1..] == [];
        assert Write(messages[..1]) == framed;
        PartialMessage(m, n);
        assert Write(messages)[..n] == framed[..n];
      } else {
        FullyWritten(messages, k);
        if k < |messages| {
          FullyWritten(messages, k + 1);
        }
        TruncatedFile(rest, n - |framed|, k - 1);
        assert Write(messages)[..n] == framed + Write(rest)[..n - |framed|];
        ParseClean(m, Write(rest)[..n - |framed|]);
        assert messages[..k] == [m] + rest[..k - 1];
      }
    }
  }

  lemma FullyWritten(messages: seq<Bytes>, k: nat)
    requires 0 < k <= |messages|
    ensures Write(messages[..k]) == messages[0] + DELIMITER + Write(messages[1..][..k - 1])
  {
    assert messages[..k][1..] == messages[1..][..k - 1];
  }

  // ---------- When a message is clean ----------

  predicate EndsWith(s: Bytes, suffix: Bytes) {
    |s| >= |suffix| && s[|s| - |suffix|..] == suffix
  }

  /** The delimiter begins the way it ends, so it is not enough that the message does not
      contain it. */
  lemma CleanIff(m: Bytes)
    ensures Clean(m) <==>
              && (forall i :: 0 <= i < |m| ==> !DelimiterAt(m, i))
              && !EndsWith(m, "==END") && !EndsWith(m, "==END=")
  {
    var framed := m + DELIMITER;
    forall i | 0 <= i < |m|
      ensures DelimiterAt(framed, i) <==>
                if i + 7 <= |m| then DelimiterAt(m, i)
                else (i + 5 == |m| && m[i..] == "==END") || (i + 6 == |m| && m[i..] == "==END=")
    {
      if i + 7 <= |m| {
        SameOccurrence(m, DELIMITER, i);
      } else {
        Overlap(m, i);
      }
    }
    if EndsWith(m, "==END") {
      assert DelimiterAt(framed, |m| - 5);
    }
    if EndsWith(m, "==END=") {
      assert DelimiterAt(framed, |m| - 6);
    }
  }

  lemma Overlap(m: Bytes, i: nat)
    requires i < |m| < i + 7
    ensures DelimiterAt(m + DELIMITER, i) <==>
              (i + 5 == |m| && m[i..] == "==END") || (i + 6 == |m| && m[i..] == "==END=")
  {
    var j := |m| - i;
    var window := (m + DELIMITER)[i..i + 7];
    assert window == m[i..] + DELIMITER[..7 - j];
    assert DELIMITER == DELIMITER[..j] + DELIMITER[j..];
    SelfOverlap(j);
    if window == DELIMITER {
      assert m[i..] == window[..j] && DELIMITER[..7 - j] == window[j..];
    }
    assert DELIMITER[..5] == "==END" && DELIMITER[..6] == "==END=";
  }

  lemma SelfOverlap(j: nat)
    requires 1 <= j <= 6
    ensures DELIMITER[..7 - j] == DELIMITER[j..] <==> j >= 5
  {
    var head, tail := DELIMITER[..7 - j], DELIMITER[j..];
    if j == 1 {
      assert head[1] == '=' && tail[1] == 'E';
    } else if j < 5 {
      assert head[0] == '=' && tail[0] != '=';
    }
  }
}
