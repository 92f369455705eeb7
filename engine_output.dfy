/**
 * How the file-based fit reads the external trainer's reply. The trainer prints two file
 * names separated by one space on stdout; anything on stderr is a failure; `users, items =
 * out.split(' ')` refuses any other number of pieces.
 */
module EngineOutput {
  import opened Outcomes
  import opened Encoding

  /** How often `c` occurs in `s`. */
  function Count(s: string, c: char): nat
    decreases |s|
  {
    if s == [] then 0 else (if s[0] == c then 1 else 0) + Count(s[1..], c)
  }

  /** Python's `s.split(sep)` for a one-character separator: every occurrence cuts, empty pieces kept. */
  function Split(s: string, sep: char): (r: seq<string>)
    ensures |r| == Count(s, sep) + 1
    decreases |s|
  {
    if s == [] then [""]
    else
      var rest := Split(s[1..], sep);
      if s[0] == sep then [""] + rest
      else [[s[0]] + rest[0]] + rest[1..]
  }

  /** Python's `sep.join(pieces)`. */
  function Join(pieces: seq<string>, sep: char): string
    requires |pieces| > 0
    decreases |pieces|
  {
    if |pieces| == 1 then pieces[0] else pieces[0] + [sep] + Join(pieces[1..], sep)
  }

  /** Joining the pieces of a split gives the string back. */
  lemma {:induction false} JoinSplit(s: string, sep: char)
    ensures Join(Split(s, sep), sep) == s
    decreases |s|
  {
    if s != [] {
      JoinSplit(s[1..], sep);
      var rest := Split(s[1..], sep);
      if s[0] == sep {
        assert ([""] + rest)[1..] == rest;
        assert s == [s[0]] + s[1..];
      } else {
        var r := [[s[0]] + rest[0]] + rest[1..];
        assert r[1..] == rest[1..];
        if |rest| > 1 {
          assert Join(rest, sep) == rest[0] + [sep] + Join(rest[1..], sep);
          assert s == [s[0]] + s[1..];
        } else {
          assert s == [s[0]] + s[1..];
        }
      }
    }
  }

  /** No piece of a split contains the separator. */
  lemma {:induction false} SplitPiecesClean(s: string, sep: char)
    ensures forall k :: 0 <= k < |Split(s, sep)| ==> sep !in Split(s, sep)[k]
    decreases |s|
  {
    if s != [] {
      SplitPiecesClean(s[1..], sep);
      var rest := Split(s[1..], sep);
      if s[0] != sep {
        var r := [[s[0]] + rest[0]] + rest[1..];
        assert sep !in rest[0];
        forall k | 0 <= k < |r|
          ensures sep !in r[k]
        {
          if k > 0 {
            assert r[k] == rest[k];
          }
        }
      }
    }
  }

  lemma {:induction false} SplitClean(s: string, sep: char)
    requires sep !in s
    ensures Split(s, sep) == [s]
    decreases |s|
  {
    if s != [] {
      SplitClean(s[1..], sep);
      assert [s[0]] + s[1..] == s;
    }
  }

  /** Splitting pieces that hold no separator, once joined, gives the pieces back. */
  lemma {:induction false} SplitJoin(pieces: seq<string>, sep: char)
    requires |pieces| > 0
    requires forall k :: 0 <= k < |pieces| ==> sep !in pieces[k]
    ensures Split(Join(pieces, sep), sep) == pieces
    decreases |pieces|
  {
    if |pieces| == 1 {
      SplitClean(pieces[0], sep);
    } else {
      SplitJoin(pieces[1..], sep);
      SplitPrefix(pieces[0], Join(pieces[1..], sep), sep);
      assert pieces[0] + [sep] + Join(pieces[1..], sep) == pieces[0] + ([sep] + Join(pieces[1..], sep));
      assert [pieces[0]] + pieces[1..] == pieces;
    }
  }

  /** A separator-free prefix followed by the separator becomes the first piece. */
  lemma {:induction false} SplitPrefix(p: string, t: string, sep: char)
    requires sep !in p
    ensures Split(p + ([sep] + t), sep) == [p] + Split(t, sep)
    decreases |p|
  {
    if p == [] {
      assert p + ([sep] + t) == [sep] + t;
      assert ([sep] + t)[1..] == t;
    } else {
      SplitPrefix(p[1..], t, sep);
      var s := p + ([sep] + t);
      assert s[0] == p[0];
      assert s[1..] == p[1..] + ([sep] + t);
      assert [p[0]] + p[1..] == p;
    }
  }

  /**
   * The reply check: a non-empty stderr raises with its text; otherwise stdout must split on
   * ' ' into exactly the users file and the items file.
   */
  function ReadPaths(out: string, err: string): (r: Result<(string, string), FitError>)
    ensures r.Ok? ==> err == "" && r.value.0 + " " + r.value.1 == out
  {
    if err != "" then Err(ProcessFailed(err))
    else
      var pieces := Split(out, ' ');
      if |pieces| == 2 then
        JoinSplit(out, ' ');
        assert Join(pieces, ' ') == pieces[0] + [' '] + Join(pieces[1..], ' ');
        Ok((pieces[0], pieces[1]))
      else Err(MalformedOutput(out))
  }

  /**
   * The reply is accepted exactly when stderr is empty and stdout has exactly one space;
   * the two names then hold no space and rebuild stdout.
   */
  lemma ReadPathsOutcome(out: string, err: string)
    ensures ReadPaths(out, err).Ok? <==> err == "" && Count(out, ' ') == 1
    ensures err != "" ==> ReadPaths(out, err) == Err(ProcessFailed(err))
    ensures err == "" && Count(out, ' ') != 1 ==> ReadPaths(out, err) == Err(MalformedOutput(out))
    ensures ReadPaths(out, err).Ok? ==>
              var (users, items) := ReadPaths(out, err).value;
              ' ' !in users && ' ' !in items && users + " " + items == out
  {
    if ReadPaths(out, err).Ok? {
      var pieces := Split(out, ' ');
      JoinSplit(out, ' ');
      SplitPiecesClean(out, ' ');
      assert Join(pieces, ' ') == pieces[0] + [' '] + Join(pieces[1..], ' ');
      assert ' ' !in pieces[0] && ' ' !in pieces[1];
    }
  }

  /** Two space-free names printed with one space between them are read back as those names. */
  lemma ReadPathsRoundTrip(users: string, items: string)
    requires ' ' !in users && ' ' !in items
    ensures ReadPaths(users + " " + items, "") == Ok((users, items))
  {
    SplitJoin([users, items], ' ');
    assert Join([users, items], ' ') == users + " " + items by {
      assert [users, items][1..] == [items];
    }
  }

  /**
   * The outcome of the file-based fit once the data is mapped: the user and item counts are
   * read (a KeyError if either column was never mapped) before the trainer runs,
   * then its reply is checked.
   */
  function ByFileOutcome<V>(tmap: IdMap<V>, out: string, err: string): (r: Result<(string, string), FitError>)
    ensures r.Ok? ==> USER in tmap && ITEM in tmap && r == ReadPaths(out, err)
  {
    match ByFileCardinalities(tmap)
    case Err(e) => Err(e)
    case Ok(_) => ReadPaths(out, err)
  }

  /** The file-based fit succeeds exactly when both columns were mapped and the reply is well formed. */
  lemma ByFileOutcomeCases<V>(tmap: IdMap<V>, out: string, err: string)
    ensures ByFileOutcome(tmap, out, err).Ok? <==>
              USER in tmap && ITEM in tmap && err == "" && Count(out, ' ') == 1
    ensures USER !in tmap ==> ByFileOutcome(tmap, out, err) == Err(MissingColumn(USER))
    ensures USER in tmap && ITEM !in tmap ==> ByFileOutcome(tmap, out, err) == Err(MissingColumn(ITEM))
    ensures USER in tmap && ITEM in tmap ==> ByFileOutcome(tmap, out, err) == ReadPaths(out, err)
  {
    ReadPathsOutcome(out, err);
  }
}
