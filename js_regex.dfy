/**
 * The fragment of JavaScript regular expressions that the fuel-entry form
 * uses: an anchored pattern `^P1 P2 ... Pn$` in which every piece is one
 * bracketed character class of ranges with a bounded repetition `{min,max}`,
 * optionally with the `i` (ignore case) flag and without the `u` or `m`
 * flags. `Test(p, s)` is `RegExp.prototype.test` on such a pattern: since
 * the pattern is anchored at both ends, it holds when the WHOLE string can be
 * cut into consecutive blocks, one per piece, each of an allowed length and
 * made of characters of that piece's class.
 */
module JsRegex {

  /** An inclusive character range, as `A-Z` inside `[A-Z]`. */
  datatype CharRange = CharRange(lo: char, hi: char)

  /** A character class repeated between `min` and `max` times: `[A-Z]{1,2}`. */
  datatype Piece = Piece(ranges: seq<CharRange>, min: nat, max: nat)

  /** `^pieces$`, with the `i` flag when `ignoreCase` holds. */
  datatype Pattern = Pattern(pieces: seq<Piece>, ignoreCase: bool)

  /** ASCII upper-casing; every other character is left as it is. */
  function Upper(c: char): (u: char)
    ensures 'A' <= u <= 'Z' <==> 'A' <= c <= 'Z' || 'a' <= c <= 'z'
  {
    if 'a' <= c <= 'z' then (c as int - 32) as char else c
  }

  /** ASCII lower-casing; every other character is left as it is. */
  function Lower(c: char): (l: char)
    ensures 'a' <= l <= 'z' <==> 'A' <= c <= 'Z' || 'a' <= c <= 'z'
  {
    if 'A' <= c <= 'Z' then (c as int + 32) as char else c
  }

  predicate InRanges(rs: seq<CharRange>, c: char)
  {
    exists i :: 0 <= i < |rs| && rs[i].lo <= c <= rs[i].hi
  }

  /**
   * Whether `c` belongs to the class of `p`. Under the `i` flag (without
   * `u`) JavaScript compares the canonical (upper-cased) forms of `c` and of
   * the class members, and never folds a non-ASCII character onto an ASCII
   * one; for classes made of ASCII ranges that is exactly "c, its upper case
   * or its lower case is in a range".
   */
  predicate ClassHas(p: Piece, ignoreCase: bool, c: char)
  {
    || InRanges(p.ranges, c)
    || (ignoreCase && (InRanges(p.ranges, Upper(c)) || InRanges(p.ranges, Lower(c))))
  }

  /** Every character of `s` at positions `i` up to (not including) `j` is in the class of `p`. */
  predicate ClassRun(p: Piece, ignoreCase: bool, s: string, i: nat, j: nat)
    requires i <= j <= |s|
  {
    forall m :: i <= m < j ==> ClassHas(p, ignoreCase, s[m])
  }

  /**
   * The meaning of the pieces `ps` from position `i` on: the rest of `s`
   * splits into one block per piece, in order, each block of a length the
   * piece allows and made of characters of its class. The first block runs
   * from `i` to some `j`.
   */
  ghost predicate DenotesFrom(ps: seq<Piece>, ignoreCase: bool, s: string, i: nat)
    requires i <= |s|
    decreases |ps|
  {
    if ps == [] then i == |s|
    else exists j :: i + ps[0].min <= j <= i + ps[0].max && j <= |s|
                     && ClassRun(ps[0], ignoreCase, s, i, j)
                     && DenotesFrom(ps[1..], ignoreCase, s, j)
  }

  /**
   * The backtracking search of the regular-expression engine from position
   * `i`: the first piece takes as many characters as it may, and gives them
   * back one at a time while the rest of the pattern fails on the rest of the
   * input.
   */
  predicate MatchesFrom(ps: seq<Piece>, ignoreCase: bool, s: string, i: nat)
    requires i <= |s|
    decreases |ps|, if ps == [] then 0 else ps[0].max + 1
  {
    if ps == [] then i == |s|
    else TryCount(ps, ignoreCase, s, i, ps[0].max)
  }

  /** The search with the first piece taking `k` characters from position `i`, then fewer. */
  predicate TryCount(ps: seq<Piece>, ignoreCase: bool, s: string, i: nat, k: nat)
    requires i <= |s| && ps != [] && k <= ps[0].max
    decreases |ps|, k
  {
    || (ps[0].min <= k && i + k <= |s|
        && ClassRun(ps[0], ignoreCase, s, i, i + k)
        && MatchesFrom(ps[1..], ignoreCase, s, i + k))
    || (ps[0].min < k && TryCount(ps, ignoreCase, s, i, k - 1))
  }

  /** `RegExp.prototype.test` for an anchored pattern of this fragment: a match from the start to the end. */
  predicate Test(p: Pattern, s: string)
  {
    MatchesFrom(p.pieces, p.ignoreCase, s, 0)
  }

  /** The backtracking search finds a match exactly when the input has the pattern's meaning. */
  lemma {:induction false} MatchesFromIff(ps: seq<Piece>, ignoreCase: bool, s: string, i: nat)
    requires i <= |s|
    ensures MatchesFrom(ps, ignoreCase, s, i) <==> DenotesFrom(ps, ignoreCase, s, i)
    decreases |ps|, if ps == [] then 0 else ps[0].max + 1
  {
    if ps != [] {
      TryCountIff(ps, ignoreCase, s, i, ps[0].max);
    }
  }

  /** Trying counts `k`, `k - 1`, ..., `min` succeeds exactly when one of them leads to a match. */
  lemma {:induction false} TryCountIff(ps: seq<Piece>, ignoreCase: bool, s: string, i: nat, k: nat)
    requires i <= |s| && ps != [] && k <= ps[0].max
    ensures TryCount(ps, ignoreCase, s, i, k) <==>
      exists j :: i + ps[0].min <= j <= i + k && j <= |s|
                  && ClassRun(ps[0], ignoreCase, s, i, j)
                  && DenotesFrom(ps[1..], ignoreCase, s, j)
    decreases |ps|, k
  {
    if i + k <= |s| {
      MatchesFromIff(ps[1..], ignoreCase, s, i + k);
    }
    if ps[0].min < k {
      TryCountIff(ps, ignoreCase, s, i, k - 1);
    }
  }

  /** Testing a pattern finds a match exactly when the whole input has the pattern's meaning. */
  lemma TestIff(p: Pattern, s: string)
    ensures Test(p, s) <==> DenotesFrom(p.pieces, p.ignoreCase, s, 0)
  {
    MatchesFromIff(p.pieces, p.ignoreCase, s, 0);
  }

  /** Taking a first block of an allowed length that matches the first piece. */
  lemma DenotesCons(ps: seq<Piece>, ignoreCase: bool, s: string, i: nat, j: nat)
    requires ps != [] && i + ps[0].min <= j <= i + ps[0].max && j <= |s|
    requires ClassRun(ps[0], ignoreCase, s, i, j)
    requires DenotesFrom(ps[1..], ignoreCase, s, j)
    ensures DenotesFrom(ps, ignoreCase, s, i)
  {
  }

  /** The first block of a match: it ends at `j`, has an allowed length and matches the first piece. */
  lemma DenotesHead(ps: seq<Piece>, ignoreCase: bool, s: string, i: nat) returns (j: nat)
    requires ps != [] && i <= |s| && DenotesFrom(ps, ignoreCase, s, i)
    ensures i + ps[0].min <= j <= i + ps[0].max && j <= |s|
    ensures ClassRun(ps[0], ignoreCase, s, i, j)
    ensures DenotesFrom(ps[1..], ignoreCase, s, j)
  {
    j :| i + ps[0].min <= j <= i + ps[0].max && j <= |s|
         && ClassRun(ps[0], ignoreCase, s, i, j)
         && DenotesFrom(ps[1..], ignoreCase, s, j);
  }

  /** Where block `k` starts: at `i` for the first block, else where block `k - 1` ends. */
  function BlockStart(i: nat, ends: seq<nat>, k: nat): (start: nat)
    requires k < |ends|
  {
    if k == 0 then i else ends[k - 1]
  }

  /**
   * `ends` splits `s` from position `i` on into one block per piece: block
   * `k` runs from `BlockStart(i, ends, k)` to `ends[k]`, has a length piece
   * `k` allows and is made of characters of its class, and the blocks end
   * where the input does.
   */
  predicate IsSplit(ps: seq<Piece>, ignoreCase: bool, s: string, i: nat, ends: seq<nat>)
  {
    && |ends| == |ps|
    && (if ps == [] then i == |s| else ends[|ps| - 1] == |s|)
    && forall k :: 0 <= k < |ps| ==>
         && BlockStart(i, ends, k) + ps[k].min <= ends[k] <= BlockStart(i, ends, k) + ps[k].max
         && ends[k] <= |s|
         && ClassRun(ps[k], ignoreCase, s, BlockStart(i, ends, k), ends[k])
  }

  /** Every match of the pieces comes with its split into blocks. */
  lemma {:induction false} SplitOf(ps: seq<Piece>, ignoreCase: bool, s: string, i: nat) returns (ends: seq<nat>)
    requires i <= |s| && DenotesFrom(ps, ignoreCase, s, i)
    ensures IsSplit(ps, ignoreCase, s, i, ends)
    decreases |ps|
  {
    if ps == [] {
      ends := [];
    } else {
      var j := DenotesHead(ps, ignoreCase, s, i);
      var rest := SplitOf(ps[1..], ignoreCase, s, j);
      ends := [j] + rest;
      forall k | 1 <= k < |ps|
        ensures BlockStart(i, ends, k) + ps[k].min <= ends[k] <= BlockStart(i, ends, k) + ps[k].max
        ensures ends[k] <= |s|
        ensures ClassRun(ps[k], ignoreCase, s, BlockStart(i, ends, k), ends[k])
      {
        assert ps[k] == ps[1..][k - 1] && ends[k] == rest[k - 1];
        assert BlockStart(i, ends, k) == BlockStart(j, rest, k - 1);
      }
    }
  }

  /** Every split of the input into blocks is a match of the pieces. */
  lemma {:induction false} SplitDenotes(ps: seq<Piece>, ignoreCase: bool, s: string, i: nat, ends: seq<nat>)
    requires i <= |s| && IsSplit(ps, ignoreCase, s, i, ends)
    ensures DenotesFrom(ps, ignoreCase, s, i)
    decreases |ps|
  {
    if ps != [] {
      var j, rest := ends[0], ends[1..];
      assert BlockStart(i, ends, 0) == i;
      forall k | 0 <= k < |ps| - 1
        ensures BlockStart(j, rest, k) + ps[1..][k].min <= rest[k] <= BlockStart(j, rest, k) + ps[1..][k].max
        ensures rest[k] <= |s|
        ensures ClassRun(ps[1..][k], ignoreCase, s, BlockStart(j, rest, k), rest[k])
      {
        assert ps[1..][k] == ps[k + 1] && rest[k] == ends[k + 1];
        assert BlockStart(j, rest, k) == BlockStart(i, ends, k + 1);
      }
      SplitDenotes(ps[1..], ignoreCase, s, j, rest);
      DenotesCons(ps, ignoreCase, s, i, j);
    }
  }
}
