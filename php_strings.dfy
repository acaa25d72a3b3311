/**
 * The PHP string built-ins the helpers rely on: `implode`, `explode` (with a
 * one-character delimiter) and the single-pair form of `str_replace`.
 */
module PhpStrings {

  /** `implode(glue, pieces)`: the pieces joined, `glue` between neighbours. */
  function Implode(glue: string, pieces: seq<string>): string
    decreases |pieces|
  {
    if |pieces| == 0 then ""
    else if |pieces| == 1 then pieces[0]
    else pieces[0] + glue + Implode(glue, pieces[1..])
  }

  /** Appending a piece appends the glue and the piece. */
  lemma {:induction false} ImplodeSnoc(glue: string, pieces: seq<string>, last: string)
    requires |pieces| >= 1
    ensures Implode(glue, pieces + [last]) == Implode(glue, pieces) + glue + last
    decreases |pieces|
  {
    if |pieces| > 1 {
      assert (pieces + [last])[1..] == pieces[1..] + [last];
      ImplodeSnoc(glue, pieces[1..], last);
    }
  }

  /**
   * `explode(sep, s)` for a one-character delimiter: the maximal pieces of `s`
   * between delimiters; there is always at least one piece ("" gives [""]).
   */
  function Explode(sep: char, s: string): (parts: seq<string>)
    ensures |parts| >= 1
    decreases |s|
  {
    if s == [] then [""]
    else
      var rest := Explode(sep, s[1..]);
      if s[0] == sep then [""] + rest
      else [[s[0]] + rest[0]] + rest[1..]
  }

  /** No piece produced by `explode` contains the delimiter. */
  lemma {:induction false} ExplodePiecesHaveNoSeparator(sep: char, s: string)
    ensures forall i :: 0 <= i < |Explode(sep, s)| ==> sep !in Explode(sep, s)[i]
    decreases |s|
  {
    if s != [] {
      ExplodePiecesHaveNoSeparator(sep, s[1..]);
    }
  }

  /** `implode(sep, explode(sep, s)) == s`: the split loses nothing. */
  lemma {:induction false} ImplodeExplode(sep: char, s: string)
    ensures Implode([sep], Explode(sep, s)) == s
    decreases |s|
  {
    if s != [] {
      ImplodeExplode(sep, s[1..]);
      var rest := Explode(sep, s[1..]);
      if s[0] == sep {
        assert ([""] + rest)[1..] == rest;
      } else {
        var parts := [[s[0]] + rest[0]] + rest[1..];
        if |rest| > 1 {
          assert parts[1..] == rest[1..];
        }
      }
    }
  }

  /** A string without the delimiter explodes into itself alone. */
  lemma {:induction false} ExplodeWithoutSeparator(sep: char, s: string)
    requires sep !in s
    ensures Explode(sep, s) == [s]
    decreases |s|
  {
    if s != [] {
      assert sep !in s[1..];
      ExplodeWithoutSeparator(sep, s[1..]);
      assert s[0] != sep;
      assert [s[0]] + s[1..] == s;
    }
  }

  /** `search` occurs in `s` at some position. */
  predicate Contains(s: string, search: string)
  {
    exists i | 0 <= i <= |s| :: search <= s[i..]
  }

  /**
   * `str_replace(search, replace, subject)`: a left-to-right scan that replaces
   * every non-overlapping occurrence of `search`; replaced text is not scanned
   * again; an empty `search` leaves the subject unchanged.
   */
  function ReplaceAll(subject: string, search: string, replace: string): string
    decreases |subject|
  {
    if search == [] || subject == [] then subject
    else if search <= subject then replace + ReplaceAll(subject[|search|..], search, replace)
    else [subject[0]] + ReplaceAll(subject[1..], search, replace)
  }

  /** A subject in which `search` never occurs comes back unchanged. */
  lemma {:induction false} ReplaceAllAbsent(subject: string, search: string, replace: string)
    requires !Contains(subject, search)
    ensures ReplaceAll(subject, search, replace) == subject
    decreases |subject|
  {
    if search != [] && subject != [] {
      assert subject[0..] == subject;
      forall i | 0 <= i <= |subject[1..]|
        ensures !(search <= subject[1..][i..])
      {
        assert subject[1..][i..] == subject[i + 1..];
      }
      ReplaceAllAbsent(subject[1..], search, replace);
    }
  }

  /** Replacing a string by itself changes nothing. */
  lemma {:induction false} ReplaceAllBySelf(subject: string, search: string)
    ensures ReplaceAll(subject, search, search) == subject
    decreases |subject|
  {
    if search != [] && subject != [] {
      if search <= subject {
        ReplaceAllBySelf(subject[|search|..], search);
        assert subject == subject[..|search|] + subject[|search|..];
      } else {
        ReplaceAllBySelf(subject[1..], search);
      }
    }
  }

  /** A replacement as long as what it replaces keeps the subject's length. */
  lemma {:induction false} ReplaceAllSameLength(subject: string, search: string, replace: string)
    requires |replace| == |search|
    ensures |ReplaceAll(subject, search, replace)| == |subject|
    decreases |subject|
  {
    if search != [] && subject != [] {
      if search <= subject {
        ReplaceAllSameLength(subject[|search|..], search, replace);
      } else {
        ReplaceAllSameLength(subject[1..], search, replace);
      }
    }
  }

  /** A leading part that cannot start an occurrence is copied through unchanged. */
  lemma {:induction false} ReplaceAllPlainPrefix(plain: string, rest: string, search: string, replace: string)
    requires search != [] && search[0] !in plain
    ensures ReplaceAll(plain + rest, search, replace) == plain + ReplaceAll(rest, search, replace)
    decreases |plain|
  {
    if plain != [] {
      var subject := plain + rest;
      assert subject[0] == plain[0] != search[0];
      assert !(search <= subject);
      assert subject[1..] == plain[1..] + rest;
      ReplaceAllPlainPrefix(plain[1..], rest, search, replace);
      assert ReplaceAll(subject, search, replace) == [subject[0]] + ReplaceAll(subject[1..], search, replace);
      assert plain == [plain[0]] + plain[1..];
      assert [plain[0]] + (plain[1..] + ReplaceAll(rest, search, replace)) == plain + ReplaceAll(rest, search, replace);
    } else {
      assert plain + rest == rest;
    }
  }

  /** An occurrence right after a plain part is replaced, and the scan resumes after it. */
  lemma ReplaceAllPlainThenMatch(plain: string, rest: string, search: string, replace: string)
    requires search != [] && search[0] !in plain
    ensures ReplaceAll(plain + search + rest, search, replace) == plain + replace + ReplaceAll(rest, search, replace)
  {
    assert plain + search + rest == plain + (search + rest);
    ReplaceAllPlainPrefix(plain, search + rest, search, replace);
    assert (search + rest)[|search|..] == rest;
  }
}
