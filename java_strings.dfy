/**
 * The part of `java.lang.String` that the comment generator relies on:
 * `split` with a separator that holds no regular-expression metacharacter
 * (the platform line separator), so the pattern matches exactly the
 * separator's own text. `SplitAll` is the raw left-to-right split, `Split`
 * adds Java's two rules on top of it: a string without any match comes back
 * whole, and trailing empty pieces are dropped.
 */
module JavaStrings {

  /** `s` begins with `prefix`. */
  predicate StartsWith(s: string, prefix: string) {
    |prefix| <= |s| && s[..|prefix|] == prefix
  }

  /** `s` ends with `suffix`. */
  predicate EndsWith(s: string, suffix: string) {
    |suffix| <= |s| && s[|s| - |suffix|..] == suffix
  }

  /** `sep` occurs in `s` starting at index `i`. */
  predicate OccursAt(s: string, sep: string, i: nat) {
    i + |sep| <= |s| && s[i..i + |sep|] == sep
  }

  /** `sep` occurs somewhere in `s`. */
  predicate Contains(s: string, sep: string) {
    exists i: nat | i <= |s| :: OccursAt(s, sep, i)
  }

  /** `sep` written `k` times. */
  function Repeat(sep: string, k: nat): string {
    if k == 0 then "" else Repeat(sep, k - 1) + sep
  }

  /** `m` empty strings. */
  function Empties(m: nat): seq<string> {
    seq(m, _ => "")
  }

  /** The pieces glued back together with `sep` between neighbours. */
  function Join(pieces: seq<string>, sep: string): string
    decreases |pieces|
  {
    if |pieces| == 0 then ""
    else if |pieces| == 1 then pieces[0]
    else pieces[0] + sep + Join(pieces[1..], sep)
  }

  /**
   * The pieces of `s` between the matches of `sep`, matches taken left to
   * right without overlap, keeping every empty piece.
   */
  function SplitAll(s: string, sep: string): (r: seq<string>)
    requires |sep| > 0
    ensures |r| >= 1
    ensures r[0] <= s
    decreases |s|
  {
    if |s| < |sep| then [s]
    else if s[..|sep|] == sep then [""] + SplitAll(s[|sep|..], sep)
    else
      var rest := SplitAll(s[1..], sep);
      [[s[0]] + rest[0]] + rest[1..]
  }

  /** The pieces without their run of trailing empty strings. */
  function DropTrailingEmpty(pieces: seq<string>): (r: seq<string>)
    ensures r <= pieces
    ensures |r| > 0 ==> r[|r| - 1] != ""
    ensures forall i :: |r| <= i < |pieces| ==> pieces[i] == ""
  {
    if |pieces| > 0 && pieces[|pieces| - 1] == "" then DropTrailingEmpty(pieces[..|pieces| - 1])
    else pieces
  }

  /**
   * `s.split(sep)` in Java: without a match the array holds `s` alone,
   * otherwise it holds the pieces with the trailing empty ones removed.
   */
  function Split(s: string, sep: string): (r: seq<string>)
    requires |sep| > 0
    ensures |SplitAll(s, sep)| == 1 ==> r == [s]
    ensures |SplitAll(s, sep)| != 1 ==>
      && r <= SplitAll(s, sep)
      && (|r| > 0 ==> r[|r| - 1] != "")
      && forall i :: |r| <= i < |SplitAll(s, sep)| ==> SplitAll(s, sep)[i] == ""
  {
    var all := SplitAll(s, sep);
    if |all| == 1 then [s] else DropTrailingEmpty(all)
  }

  /** Putting a character in front of the first piece puts it in front of the join. */
  lemma {:induction false} JoinConsFirst(c: char, pieces: seq<string>, sep: string)
    requires |pieces| >= 1
    ensures Join([[c] + pieces[0]] + pieces[1..], sep) == [c] + Join(pieces, sep)
  {
    var r := [[c] + pieces[0]] + pieces[1..];
    assert r[0] == [c] + pieces[0];
    if |pieces| > 1 {
      assert r[1..] == pieces[1..];
    }
  }

  lemma {:induction false} JoinSplitAll(s: string, sep: string)
    requires |sep| > 0
    ensures Join(SplitAll(s, sep), sep) == s
    decreases |s|
  {
    if |s| < |sep| {
      assert SplitAll(s, sep) == [s];
    } else if s[..|sep|] == sep {
      var rest := SplitAll(s[|sep|..], sep);
      var all := [""] + rest;
      assert SplitAll(s, sep) == all;
      assert all[0] == "" && all[1..] == rest;
      assert Join(all, sep) == "" + sep + Join(rest, sep);
      JoinSplitAll(s[|sep|..], sep);
      assert s == sep + s[|sep|..];
    } else {
      var rest := SplitAll(s[1..], sep);
      assert SplitAll(s, sep) == [[s[0]] + rest[0]] + rest[1..];
      JoinSplitAll(s[1..], sep);
      JoinConsFirst(s[0], rest, sep);
      assert s == [s[0]] + s[1..];
    }
  }

  /** Two or more pieces mean that `sep` occurs in `s`, after the first piece. */
  lemma {:induction false} SplitAllManyContains(s: string, sep: string)
    requires |sep| > 0
    requires |SplitAll(s, sep)| >= 2
    ensures OccursAt(s, sep, |SplitAll(s, sep)[0]|)
  {
    var all := SplitAll(s, sep);
    JoinSplitAll(s, sep);
    assert s == all[0] + sep + Join(all[1..], sep);
    assert s[|all[0]|..|all[0]| + |sep|] == sep;
  }

  /** No piece of `SplitAll` contains the separator. */
  lemma {:induction false} SplitAllPiecesFree(s: string, sep: string)
    requires |sep| > 0
    ensures forall p :: p in SplitAll(s, sep) ==> !Contains(p, sep)
    decreases |s|
  {
    if |s| < |sep| {
    } else if s[..|sep|] == sep {
      SplitAllPiecesFree(s[|sep|..], sep);
    } else {
      var rest := SplitAll(s[1..], sep);
      SplitAllPiecesFree(s[1..], sep);
      var first := [s[0]] + rest[0];
      assert first <= s by {
        assert rest[0] <= s[1..];
        assert s == [s[0]] + s[1..];
      }
      assert !Contains(rest[0], sep) by {
        assert rest[0] in rest;
      }
      if |sep| <= |first| {
        assert first[..|sep|] == s[..|sep|];
      }
      assert !OccursAt(first, sep, 0);
      forall i: nat | 0 < i <= |first| ensures !OccursAt(first, sep, i) {
        if i + |sep| <= |first| {
          assert first[i..i + |sep|] == rest[0][i - 1..i - 1 + |sep|];
          assert !OccursAt(rest[0], sep, i - 1);
        }
      }
      assert !Contains(first, sep);
      var r := [first] + rest[1..];
      forall p | p in r ensures !Contains(p, sep) {
        if p != first {
          assert p in rest;
        }
      }
    }
  }

  /** A string without the separator is a single piece. */
  lemma {:induction false} SplitAllNoMatch(s: string, sep: string)
    requires |sep| > 0
    requires !Contains(s, sep)
    ensures SplitAll(s, sep) == [s]
  {
    if |SplitAll(s, sep)| >= 2 {
      SplitAllManyContains(s, sep);
      assert false;
    }
    JoinSplitAll(s, sep);
  }

  /**
   * With a one-character separator, the first piece runs up to the first
   * separator and splitting resumes right after it.
   */
  lemma {:induction false} SplitAllAtFirstSeparator(p: string, rest: string, sep: string)
    requires |sep| == 1 && sep[0] !in p
    ensures SplitAll(p + sep + rest, sep) == [p] + SplitAll(rest, sep)
    decreases |p|
  {
    var s := p + sep + rest;
    if p == "" {
      assert s[..1] == sep && s[1..] == rest;
    } else {
      assert s[..1] != sep by {
        assert s[..1][0] == p[0];
      }
      assert s[1..] == p[1..] + sep + rest;
      SplitAllAtFirstSeparator(p[1..], rest, sep);
      assert [s[0]] + p[1..] == p;
    }
  }

  /** A one-character separator is contained exactly where its character occurs. */
  lemma {:induction false} SingleCharContains(s: string, sep: string)
    requires |sep| == 1 && sep[0] !in s
    ensures !Contains(s, sep)
  {
  }

  /** Java's no-match rule: a string without the separator splits into itself. */
  lemma {:induction false} SplitNoMatch(s: string, sep: string)
    requires |sep| > 0
    requires !Contains(s, sep)
    ensures Split(s, sep) == [s]
  {
    if |SplitAll(s, sep)| >= 2 {
      SplitAllManyContains(s, sep);
      assert false;
    }
  }

  /** With at least one match, the pieces of `Split` are free of the separator. */
  lemma {:induction false} SplitPiecesFree(s: string, sep: string)
    requires |sep| > 0
    ensures forall p :: p in Split(s, sep) ==> !Contains(p, sep)
  {
    var all := SplitAll(s, sep);
    SplitAllPiecesFree(s, sep);
    JoinSplitAll(s, sep);
    if |all| == 1 {
      assert s == all[0];
    } else {
      var r := DropTrailingEmpty(all);
      forall p | p in r ensures p in all {
        var i :| 0 <= i < |r| && r[i] == p;
        assert all[i] == p;
      }
    }
  }

  /** Appending one piece to a non-empty list adds the separator and the piece. */
  lemma {:induction false} JoinSnoc(pieces: seq<string>, last: string, sep: string)
    requires |pieces| >= 1
    ensures Join(pieces + [last], sep) == Join(pieces, sep) + sep + last
    decreases |pieces|
  {
    var ps := pieces + [last];
    if |pieces| == 1 {
      assert ps[1..] == [last];
    } else {
      assert ps[1..] == pieces[1..] + [last];
      JoinSnoc(pieces[1..], last, sep);
    }
  }

  /** Empty pieces after a non-empty list each contribute a separator. */
  lemma {:induction false} JoinTrailingEmpties(pieces: seq<string>, m: nat, sep: string)
    requires |pieces| >= 1
    ensures Join(pieces + Empties(m), sep) == Join(pieces, sep) + Repeat(sep, m)
    decreases m
  {
    if m == 0 {
      assert pieces + Empties(0) == pieces;
    } else {
      assert pieces + Empties(m) == (pieces + Empties(m - 1)) + [""];
      JoinSnoc(pieces + Empties(m - 1), "", sep);
      JoinTrailingEmpties(pieces, m - 1, sep);
    }
  }

  /** A list of `m` empty pieces joins to `m - 1` separators. */
  lemma {:induction false} JoinEmpties(m: nat, sep: string)
    requires m >= 1
    ensures Join(Empties(m), sep) == Repeat(sep, m - 1)
    decreases m
  {
    if m > 1 {
      assert Empties(m) == Empties(m - 1) + [""];
      JoinSnoc(Empties(m - 1), "", sep);
      JoinEmpties(m - 1, sep);
    }
  }

  /** The dropped pieces are all empty strings. */
  lemma {:induction false} DroppedAreEmpties(pieces: seq<string>)
    ensures pieces == DropTrailingEmpty(pieces) + Empties(|pieces| - |DropTrailingEmpty(pieces)|)
  {
    var kept := DropTrailingEmpty(pieces);
    var tail := Empties(|pieces| - |kept|);
    assert forall i :: 0 <= i < |pieces| ==> pieces[i] == (kept + tail)[i];
  }

  /**
   * Joining the pieces gives the join of the kept pieces followed by one
   * separator per dropped piece, one fewer when every piece was dropped.
   */
  lemma {:induction false} JoinDropTrailingEmpty(pieces: seq<string>, sep: string)
    requires |pieces| >= 1
    ensures var kept := DropTrailingEmpty(pieces);
      Join(pieces, sep) == Join(kept, sep) + Repeat(sep, if |kept| == 0 then |pieces| - 1 else |pieces| - |kept|)
  {
    var kept := DropTrailingEmpty(pieces);
    var m := |pieces| - |kept|;
    DroppedAreEmpties(pieces);
    if |kept| == 0 {
      assert pieces == Empties(m);
      JoinEmpties(m, sep);
    } else {
      JoinTrailingEmpties(kept, m, sep);
    }
  }

  /**
   * `Split` loses only separators at the end of the string: joining its
   * pieces gives back `s` short of some number of trailing separators.
   */
  lemma {:induction false} SplitLosesOnlyTrailingSeparators(s: string, sep: string)
    requires |sep| > 0
    ensures exists k: nat :: s == Join(Split(s, sep), sep) + Repeat(sep, k)
  {
    var all := SplitAll(s, sep);
    JoinSplitAll(s, sep);
    if |all| == 1 {
      assert Split(s, sep) == [s];
      assert s == Join(Split(s, sep), sep) + Repeat(sep, 0);
    } else {
      var kept := DropTrailingEmpty(all);
      assert Split(s, sep) == kept;
      JoinDropTrailingEmpty(all, sep);
      var k := if |kept| == 0 then |all| - 1 else |all| - |kept|;
      assert s == Join(kept, sep) + Repeat(sep, k);
    }
  }

  /** A string followed by at least one separator ends with the separator. */
  lemma {:induction false} EndsWithRepeat(x: string, sep: string, k: nat)
    requires k > 0
    ensures EndsWith(x + Repeat(sep, k), sep)
  {
    assert x + Repeat(sep, k) == (x + Repeat(sep, k - 1)) + sep;
  }

  /** The separator can be peeled off the front of a repetition as well as off its end. */
  lemma {:induction false} RepeatCons(sep: string, k: nat)
    requires k >= 1
    ensures Repeat(sep, k) == sep + Repeat(sep, k - 1)
    decreases k
  {
    if k > 1 {
      RepeatCons(sep, k - 1);
      assert Repeat(sep, k) == (sep + Repeat(sep, k - 2)) + sep;
    }
  }

  /** A run of `k` separators splits into `k + 1` empty pieces. */
  lemma {:induction false} SplitAllRepeat(sep: string, k: nat)
    requires |sep| > 0
    ensures SplitAll(Repeat(sep, k), sep) == Empties(k + 1)
    decreases k
  {
    if k == 0 {
      assert SplitAll("", sep) == [""];
    } else {
      var rest := Repeat(sep, k - 1);
      var s := Repeat(sep, k);
      RepeatCons(sep, k);
      assert s[..|sep|] == sep && s[|sep|..] == rest;
      assert SplitAll(s, sep) == [""] + SplitAll(rest, sep);
      SplitAllRepeat(sep, k - 1);
      assert [""] + Empties(k) == Empties(k + 1);
    }
  }

  /** Dropping trailing empty pieces from empty pieces only leaves nothing. */
  lemma {:induction false} DropAllEmpties(m: nat)
    ensures DropTrailingEmpty(Empties(m)) == []
    decreases m
  {
    if m > 0 {
      assert Empties(m)[..m - 1] == Empties(m - 1);
      DropAllEmpties(m - 1);
    }
  }

  /**
   * A non-empty string splits into no pieces at all exactly when it is made
   * of separators only: every raw piece is empty and all are dropped.
   */
  lemma {:induction false} SplitEmptyIffOnlySeparators(s: string, sep: string)
    requires |sep| > 0 && s != ""
    ensures |Split(s, sep)| == 0 <==> exists k: nat :: s == Repeat(sep, k)
  {
    var all := SplitAll(s, sep);
    if |Split(s, sep)| == 0 {
      assert |all| != 1;
      JoinSplitAll(s, sep);
      JoinDropTrailingEmpty(all, sep);
      assert s == Repeat(sep, |all| - 1);
    }
    if exists k: nat :: s == Repeat(sep, k) {
      var k: nat :| s == Repeat(sep, k);
      assert k != 0;
      SplitAllRepeat(sep, k);
      DropAllEmpties(k + 1);
    }
  }

  /** A string that does not end with the separator is exactly the join of its pieces. */
  lemma {:induction false} SplitJoinRoundTrip(s: string, sep: string)
    requires |sep| > 0
    requires !EndsWith(s, sep)
    ensures Join(Split(s, sep), sep) == s
  {
    SplitLosesOnlyTrailingSeparators(s, sep);
    var k: nat :| s == Join(Split(s, sep), sep) + Repeat(sep, k);
    if k > 0 {
      EndsWithRepeat(Join(Split(s, sep), sep), sep, k);
    }
  }
}
