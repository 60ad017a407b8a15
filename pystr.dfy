/**
 * The parts of Python's `str` that the downloader relies on: slicing with
 * non-negative bounds (which clamps instead of failing) and `split` on a
 * one-character separator, together with its inverse, `join`.
 */
module PyStr {

  function Min(a: int, b: int): int { if a <= b then a else b }

  /** `s[lo:hi]` for non-negative `lo` and `hi`: both bounds are clamped to `|s|`. */
  function Slice(s: string, lo: nat, hi: nat): (r: string)
    ensures |r| == if Min(hi, |s|) > lo then Min(hi, |s|) - lo else 0
    ensures forall k :: 0 <= k < |r| ==> r[k] == s[lo + k]
  {
    var end := Min(hi, |s|);
    if lo < end then s[lo..end] else ""
  }

  /** `s[1:]`: the string without its first character; the empty string stays empty. */
  function DropFirst(s: string): (r: string)
    ensures s == "" ==> r == ""
    ensures s != "" ==> [s[0]] + r == s
  {
    Slice(s, 1, |s|)
  }

  /** `sep.join(fields)`, for a non-empty list of fields. */
  function Join(fields: seq<string>, sep: char): string
    requires |fields| >= 1
  {
    if |fields| == 1 then fields[0] else fields[0] + [sep] + Join(fields[1..], sep)
  }

  predicate FreeOf(fields: seq<string>, sep: char)
  {
    forall i :: 0 <= i < |fields| ==> sep !in fields[i]
  }

  /** `s.split(sep)`: the fields between occurrences of `sep`, at least one. */
  function Split(s: string, sep: char): (r: seq<string>)
    ensures |r| >= 1
    decreases |s|
  {
    if s == [] then [""]
    else if s[0] == sep then [""] + Split(s[1..], sep)
    else
      var rest := Split(s[1..], sep);
      [[s[0]] + rest[0]] + rest[1..]
  }

  /** No field of `s.split(sep)` holds `sep`. */
  lemma {:induction false} SplitFree(s: string, sep: char)
    ensures FreeOf(Split(s, sep), sep)
    decreases |s|
  {
    if s != [] {
      SplitFree(s[1..], sep);
      var rest := Split(s[1..], sep);
      var r := Split(s, sep);
      if s[0] != sep {
        assert sep !in [s[0]] + rest[0];
        assert forall i :: 1 <= i < |r| ==> r[i] == rest[i];
      } else {
        assert forall i :: 1 <= i < |r| ==> r[i] == rest[i - 1];
      }
    }
  }

  /** Joining the fields of `s.split(sep)` with `sep` gives `s` back. */
  lemma {:induction false} SplitRejoins(s: string, sep: char)
    ensures Join(Split(s, sep), sep) == s
    decreases |s|
  {
    if s != [] {
      SplitRejoins(s[1..], sep);
      RejoinStep(s, sep);
    }
  }

  /** Rejoining the fields of a non-empty `s`, given that those of `s[1..]` rejoin. */
  lemma RejoinStep(s: string, sep: char)
    requires s != [] && Join(Split(s[1..], sep), sep) == s[1..]
    ensures Join(Split(s, sep), sep) == s
  {
    var c, tail := s[0], s[1..];
    var rest := Split(tail, sep);
    var r := Split(s, sep);
    if c == sep {
      assert r[1..] == rest;
    } else if |rest| == 1 {
      assert r == [[c] + tail];
    } else {
      var head := [c] + rest[0];
      assert r[1..] == rest[1..];
      calc {
        Join(r, sep);
        head + [sep] + Join(rest[1..], sep);
        [c] + (rest[0] + [sep] + Join(rest[1..], sep));
        [c] + tail;
      }
    }
  }

  /** `s.split(sep)` has more than one field exactly when `sep` occurs in `s`. */
  lemma {:induction false} SplitCount(s: string, sep: char)
    ensures |Split(s, sep)| > 1 <==> sep in s
    decreases |s|
  {
    if s != [] {
      SplitCount(s[1..], sep);
      assert s == [s[0]] + s[1..];
      assert sep in s <==> s[0] == sep || sep in s[1..];
    }
  }

  /**
   * The fields of `s.split(sep)` hold no `sep`, joining them with `sep`
   * gives `s` back, and there is more than one exactly when `sep` occurs
   * in `s`.
   */
  lemma SplitFields(s: string, sep: char)
    ensures FreeOf(Split(s, sep), sep)
    ensures Join(Split(s, sep), sep) == s
    ensures |Split(s, sep)| > 1 <==> sep in s
  {
    SplitFree(s, sep);
    SplitRejoins(s, sep);
    SplitCount(s, sep);
  }

  lemma {:induction false} JoinSnoc(fields: seq<string>, last: string, sep: char)
    requires |fields| >= 1
    ensures Join(fields + [last], sep) == Join(fields, sep) + [sep] + last
    decreases |fields|
  {
    if |fields| == 1 {
      assert fields + [last] == [fields[0], last];
    } else {
      assert (fields + [last])[1..] == fields[1..] + [last];
      JoinSnoc(fields[1..], last, sep);
    }
  }

  /**
   * `split` undoes `join`: a list of separator-free fields is recovered
   * exactly from the string that joins them.
   */
  lemma {:induction false} SplitJoin(fields: seq<string>, sep: char)
    requires |fields| >= 1 && FreeOf(fields, sep)
    ensures Split(Join(fields, sep), sep) == fields
    decreases |Join(fields, sep)|
  {
    var s := Join(fields, sep);
    if fields[0] == "" {
      if |fields| > 1 {
        assert s == [sep] + Join(fields[1..], sep);
        assert s[1..] == Join(fields[1..], sep);
        SplitJoin(fields[1..], sep);
        assert fields == [""] + fields[1..];
      }
    } else {
      var c := fields[0][0];
      var t := fields[0][1..];
      var shorter := [t] + fields[1..];
      assert fields[0] == [c] + t;
      assert sep !in t by { assert forall x :: x in t ==> x in fields[0]; }
      assert FreeOf(shorter, sep);
      if |fields| == 1 {
        assert s == [c] + Join(shorter, sep);
      } else {
        assert shorter[1..] == fields[1..];
        assert s == [c] + Join(shorter, sep);
      }
      assert s[1..] == Join(shorter, sep);
      SplitJoin(shorter, sep);
      assert fields == [[c] + shorter[0]] + shorter[1..];
    }
  }

  /** Splitting `x + sep + y`, where `y` holds no separator, adds `y` as a new last field. */
  lemma SplitSnoc(x: string, y: string, sep: char)
    requires sep !in y
    ensures Split(x + [sep] + y, sep) == Split(x, sep) + [y]
  {
    var fs := Split(x, sep);
    SplitFields(x, sep);
    JoinSnoc(fs, y, sep);
    SplitJoin(fs + [y], sep);
  }
}
