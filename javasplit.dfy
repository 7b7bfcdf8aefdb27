/**
 * Java's `String.split` on the literal separator ",": the unlimited form
 * `split(",")`, which drops trailing empty pieces, and the limited form
 * `split(",", n)`, which stops after n pieces and keeps the rest, empty
 * pieces included, in the last one.
 */
module JavaSplit {

  function CommaCount(s: string): nat {
    if s == [] then 0 else (if s[0] == ',' then 1 else 0) + CommaCount(s[1..])
  }

  /** The pieces of `s` between commas, all of them, empty ones included. */
  function Pieces(s: string): (ps: seq<string>)
    ensures |ps| == CommaCount(s) + 1
  {
    if s == [] then [""]
    else
      var rest := Pieces(s[1..]);
      if s[0] == ',' then [""] + rest
      else [[s[0]] + rest[0]] + rest[1..]
  }

  /** No piece contains the separator. */
  lemma {:induction false} PiecesHaveNoComma(s: string)
    ensures forall i :: 0 <= i < |Pieces(s)| ==> ',' !in Pieces(s)[i]
  {
    if s != [] {
      PiecesHaveNoComma(s[1..]);
      var rest := Pieces(s[1..]);
      if s[0] != ',' {
        assert ',' !in rest[0];
        var ps := Pieces(s);
        forall i | 0 <= i < |ps| ensures ',' !in ps[i] {
          if i > 0 {
            assert ps[i] == rest[i];
          }
        }
      }
    }
  }

  /** The pieces put back together with commas between them. */
  function Join(ps: seq<string>): string {
    if ps == [] then "" else if |ps| == 1 then ps[0] else ps[0] + "," + Join(ps[1..])
  }

  /** Splitting loses nothing: joining the pieces gives the text back. */
  lemma {:induction false} JoinPieces(s: string)
    ensures Join(Pieces(s)) == s
  {
    if s != [] {
      var rest := Pieces(s[1..]);
      JoinPieces(s[1..]);
      if s[0] == ',' {
        assert Join([""] + rest) == "" + "," + Join(rest);
      } else {
        if |rest| == 1 {
          assert Join(rest) == rest[0];
        } else {
          assert Join(rest) == rest[0] + "," + Join(rest[1..]);
          assert ([[s[0]] + rest[0]] + rest[1..])[1..] == rest[1..];
        }
      }
    }
  }

  /** `s.split(",", limit)` for a positive limit. */
  function SplitLimit(s: string, limit: nat): (fields: seq<string>)
    requires limit >= 1
    ensures |fields| == if CommaCount(s) + 1 <= limit then CommaCount(s) + 1 else limit
  {
    var ps := Pieces(s);
    if |ps| <= limit then ps else ps[..limit - 1] + [Join(ps[limit - 1..])]
  }

  /** `split(",", 4)` yields fewer than four fields exactly when the text has
      fewer than three commas. */
  lemma FourFieldsNeedThreeCommas(s: string)
    ensures |SplitLimit(s, 4)| < 4 <==> CommaCount(s) < 3
  {
  }

  /** The limited split also loses nothing. */
  lemma SplitLimitJoins(s: string, limit: nat)
    requires limit >= 1
    ensures Join(SplitLimit(s, limit)) == s
    ensures var fields := SplitLimit(s, limit);
      && (forall i :: 0 <= i < |fields| - 1 ==> fields[i] == Pieces(s)[i])
      && (CommaCount(s) + 1 <= limit ==> fields == Pieces(s))
      && (CommaCount(s) + 1 > limit ==> fields[limit - 1] == Join(Pieces(s)[limit - 1..]))
  {
    var ps := Pieces(s);
    JoinPieces(s);
    if |ps| > limit {
      JoinSplitAt(ps, limit - 1);
    }
  }

  lemma {:induction false} JoinSplitAt(ps: seq<string>, k: nat)
    requires k < |ps|
    ensures Join(ps[..k] + [Join(ps[k..])]) == Join(ps)
    decreases k
  {
    if k > 0 {
      var qs := ps[..k] + [Join(ps[k..])];
      JoinSplitAt(ps[1..], k - 1);
      assert ps[1..][..k - 1] == ps[..k][1..];
      assert ps[1..][k - 1..] == ps[k..];
      assert qs[1..] == ps[1..][..k - 1] + [Join(ps[1..][k - 1..])];
    } else {
      assert ps[..0] + [Join(ps[0..])] == [Join(ps)];
    }
  }

  /** The pieces without the empty ones at the end. */
  function DropTrailingEmpty(ps: seq<string>): (r: seq<string>)
    ensures |r| <= |ps|
  {
    if ps == [] || ps[|ps| - 1] != "" then ps else DropTrailingEmpty(ps[..|ps| - 1])
  }

  /** What is dropped are exactly the empty pieces at the end. */
  lemma {:induction false} DropTrailingEmptyMeaning(ps: seq<string>)
    ensures var r := DropTrailingEmpty(ps);
      && r == ps[..|r|]
      && (r == [] || r[|r| - 1] != "")
      && (forall i :: |r| <= i < |ps| ==> ps[i] == "")
    decreases |ps|
  {
    if ps != [] && ps[|ps| - 1] == "" {
      DropTrailingEmptyMeaning(ps[..|ps| - 1]);
      var r := DropTrailingEmpty(ps);
      assert ps[..|ps| - 1][..|r|] == ps[..|r|];
    }
  }

  /** `s.split(",")`: the text itself when it has no comma, otherwise its
      pieces with the trailing empty ones removed. */
  function Split(s: string): (r: seq<string>)
    ensures |r| <= |Pieces(s)|
    ensures CommaCount(s) == 0 ==> r == [s]
  {
    if CommaCount(s) == 0 then [s] else DropTrailingEmpty(Pieces(s))
  }

  /** The unlimited split keeps the pieces up to the last non-empty one
      (all of them, one, when there is no comma) and drops only empty ones. */
  lemma SplitMeaning(s: string)
    ensures var r := Split(s);
      && r == Pieces(s)[..|r|]
      && (forall i :: |r| <= i < |Pieces(s)| ==> Pieces(s)[i] == "")
      && (CommaCount(s) == 0 ==> r == [s])
      && (CommaCount(s) > 0 && r != [] ==> r[|r| - 1] != "")
  {
    if CommaCount(s) == 0 {
      NoCommaOnePiece(s);
    } else {
      DropTrailingEmptyMeaning(Pieces(s));
    }
  }

  /** A text without commas is a single piece. */
  lemma {:induction false} NoCommaOnePiece(s: string)
    requires CommaCount(s) == 0
    ensures Pieces(s) == [s]
  {
    if s != [] {
      NoCommaOnePiece(s[1..]);
      assert [s[0]] + s[1..] == s;
    }
  }
}
