/** Python's `sep.join(parts)` on strings, and the facts about it that the
    application relies on: every part appears, in order, with exactly one
    separator between two neighbours and none before the first or after the last. */
module Text {

  /** `sep.join(parts)`: the first part opens the result. */
  function Join(parts: seq<string>, sep: string): (r: string)
    ensures parts != [] ==> parts[0] <= r
  {
    if |parts| == 0 then ""
    else if |parts| == 1 then parts[0]
    else parts[0] + sep + Join(parts[1..], sep)
  }

  /** Sum of the lengths of `parts`. */
  function TotalLength(parts: seq<string>): (n: nat)
  {
    if |parts| == 0 then 0 else |parts[0]| + TotalLength(parts[1..])
  }

  /** Where part `i` starts in `Join(parts, sep)`: all earlier parts, plus one
      separator after each of them. */
  function Offset(parts: seq<string>, sep: string, i: nat): (o: nat)
    requires i <= |parts|
  {
    TotalLength(parts[..i]) + i * |sep|
  }

  /** `suffix` is the tail of `s`. */
  predicate EndsWith(s: string, suffix: string)
  {
    |suffix| <= |s| && s[|s| - |suffix|..] == suffix
  }

  /** The joined string is as long as the parts together plus one separator
      per gap between neighbouring parts. */
  lemma {:induction false} JoinLength(parts: seq<string>, sep: string)
    requires |parts| > 0
    ensures |Join(parts, sep)| == TotalLength(parts) + (|parts| - 1) * |sep|
  {
    if |parts| > 1 {
      JoinLength(parts[1..], sep);
    }
  }

  lemma {:induction false} OffsetStep(parts: seq<string>, sep: string, i: nat)
    requires 0 < i <= |parts|
    ensures Offset(parts, sep, i) == |parts[0]| + |sep| + Offset(parts[1..], sep, i - 1)
  {
    assert parts[..i][1..] == parts[1..][..i - 1];
  }

  lemma {:induction false} TotalLengthAppend(parts: seq<string>, x: string)
    ensures TotalLength(parts + [x]) == TotalLength(parts) + |x|
  {
    if |parts| > 0 {
      assert (parts + [x])[1..] == parts[1..] + [x];
      TotalLengthAppend(parts[1..], x);
    }
  }

  /** Consecutive offsets are one part and one separator apart. */
  lemma OffsetNext(parts: seq<string>, sep: string, i: nat)
    requires i < |parts|
    ensures Offset(parts, sep, i + 1) == Offset(parts, sep, i) + |parts[i]| + |sep|
  {
    assert parts[..i + 1] == parts[..i] + [parts[i]];
    TotalLengthAppend(parts[..i], parts[i]);
  }

  /** Part `i` sits at `Offset(parts, sep, i)` in the joined string, and is
      followed by exactly one separator unless it is the last part: the parts
      keep their order and nothing else is inserted. */
  lemma {:induction false} JoinAt(parts: seq<string>, sep: string, i: nat)
    requires i < |parts|
    ensures Offset(parts, sep, i) + |parts[i]| <= |Join(parts, sep)|
    ensures Join(parts, sep)[Offset(parts, sep, i)..Offset(parts, sep, i) + |parts[i]|] == parts[i]
    ensures i + 1 < |parts| ==>
              Offset(parts, sep, i + 1) == Offset(parts, sep, i) + |parts[i]| + |sep| &&
              Offset(parts, sep, i + 1) <= |Join(parts, sep)| &&
              Join(parts, sep)[Offset(parts, sep, i) + |parts[i]|..Offset(parts, sep, i + 1)] == sep
  {
    var j := Join(parts, sep);
    OffsetNext(parts, sep, i);
    assert Offset(parts, sep, 0) == 0 by { assert parts[..0] == []; }
    if |parts| == 1 {
      assert j == parts[0];
    } else {
      var rest := parts[1..];
      var head := parts[0] + sep;
      assert j == head + Join(rest, sep);
      OffsetStep(parts, sep, 1);
      assert Offset(rest, sep, 0) == 0 by { assert rest[..0] == []; }
      if i == 0 {
        JoinAt(rest, sep, 0);
        assert j[..|parts[0]|] == parts[0];
        assert j[|parts[0]|..|head|] == sep;
      } else {
        JoinAt(rest, sep, i - 1);
        OffsetStep(parts, sep, i);
        var o := Offset(rest, sep, i - 1);
        assert Offset(parts, sep, i) == |head| + o;
        assert j[|head| + o..|head| + o + |parts[i]|] == Join(rest, sep)[o..o + |rest[i - 1]|];
        if i + 1 < |parts| {
          OffsetNext(rest, sep, i - 1);
          var e := o + |rest[i - 1]|;
          assert j[|head| + e..|head| + e + |sep|] == Join(rest, sep)[e..e + |sep|];
        }
      }
    }
  }

  /** Joining one part adds no separator. */
  lemma JoinOne(a: string, sep: string)
    ensures Join([a], sep) == a
  {
  }

  /** Joining two parts puts exactly one separator between them. */
  lemma JoinTwo(a: string, b: string, sep: string)
    ensures Join([a, b], sep) == a + sep + b
  {
    assert [a, b][1..] == [b];
  }

  /** The joined string is empty exactly when there is nothing to join or
      the only part is empty; two or more parts always leave a separator. */
  lemma {:induction false} JoinEmpty(parts: seq<string>, sep: string)
    requires sep != ""
    ensures Join(parts, sep) == "" <==> (parts == [] || parts == [""])
  {
    if |parts| > 1 {
      assert |Join(parts, sep)| >= |sep|;
    }
  }
}
