/**
 * The reviewer list of a pull request is stored as one string,
 * "[" + ids joined by ", " + "]". This module holds the encoder the
 * managers use, the tokenizer that the in-memory store's reviewer query
 * shares with the decoders, and parseReviewers.
 */
module ReviewerList {
  import opened GoStrings

  /** The cut set of strings.Trim(s, "[]"). */
  const Brackets: set<char> := {'[', ']'}

  /** fmt.Sprintf("[%s]", strings.Join(ids, ", ")). */
  function Encode(ids: seq<string>): string {
    "[" + Join(ids, ", ") + "]"
  }

  /** Every part passed through strings.TrimSpace. */
  function TrimAll(parts: seq<string>): (r: seq<string>)
    ensures |r| == |parts|
    ensures forall i :: 0 <= i < |parts| ==> r[i] == TrimSpace(parts[i])
  {
    seq(|parts|, i requires 0 <= i < |parts| => TrimSpace(parts[i]))
  }

  /**
   * The parts of an encoded list: brackets trimmed from both ends, nothing
   * when what is left is empty, otherwise split on ',' and each part
   * white-space trimmed. Empty parts are kept.
   */
  function Tokens(s: string): seq<string> {
    var inner := Trim(s, Brackets);
    if inner == "" then [] else TrimAll(Split(inner, ','))
  }

  /** The parts that are not empty, in order. */
  function NonEmpty(parts: seq<string>): (r: seq<string>)
    ensures |r| <= |parts|
    ensures forall x :: x in r <==> x in parts && x != ""
  {
    if parts == [] then []
    else if parts[0] == "" then NonEmpty(parts[1..])
    else [parts[0]] + NonEmpty(parts[1..])
  }

  /** A reviewer id as the decoders hand it out: not empty and not padded with white space. */
  predicate Clean(id: string) {
    id != "" && !IsSpace(id[0]) && !IsSpace(id[|id| - 1])
  }

  /** An id that survives encoding and decoding: clean, and free of the separator and the brackets. */
  predicate WellFormedId(id: string) {
    Clean(id) && ',' !in id && '[' !in id && ']' !in id
  }

  /**
   * parseReviewers: the non-empty trimmed parts of an encoded list. Every
   * id it yields is clean and holds no comma, and a non-empty string is
   * among them exactly when it is one of the list's parts.
   */
  function ParseReviewers(s: string): (ids: seq<string>)
    ensures forall i :: 0 <= i < |ids| ==> Clean(ids[i]) && ',' !in ids[i]
    ensures forall x :: x in ids <==> x != "" && x in Tokens(s)
  {
    var parts := Tokens(s);
    TokensShape(s);
    var ids := NonEmpty(parts);
    forall i | 0 <= i < |ids| ensures ids[i] in parts && ids[i] != "" {
      assert ids[i] in ids;
    }
    ids
  }

  /** Keeping the non-empty parts of a longer list extends the kept parts by the last one, unless it is empty. */
  lemma {:induction false} NonEmptySnoc(parts: seq<string>, part: string)
    ensures NonEmpty(parts + [part]) == NonEmpty(parts) + (if part == "" then [] else [part])
    decreases |parts|
  {
    if parts == [] {
      var single := [part];
      assert single[1..] == [];
      assert parts + [part] == single;
    } else {
      NonEmptySnoc(parts[1..], part);
      assert (parts + [part])[1..] == parts[1..] + [part];
    }
  }

  /**
   * parseReviewers as the source writes it: trim the brackets, return
   * nothing for an empty rest, otherwise append each part that is not
   * empty after white-space trimming.
   */
  method DecodeReviewers(reviewersStr: string) returns (reviewers: seq<string>)
    ensures reviewers == ParseReviewers(reviewersStr)
  {
    var inner := Trim(reviewersStr, Brackets);
    if inner == "" {
      return [];
    }
    var parts := Split(inner, ',');
    reviewers := [];
    for i := 0 to |parts|
      invariant reviewers == NonEmpty(TrimAll(parts[..i]))
    {
      var reviewer := TrimSpace(parts[i]);
      NonEmptySnoc(TrimAll(parts[..i]), reviewer);
      assert TrimAll(parts[..i + 1]) == TrimAll(parts[..i]) + [reviewer];
      if reviewer != "" {
        reviewers := reviewers + [reviewer];
      }
    }
    assert parts[..|parts|] == parts;
  }

  /** Each part is comma-free and, unless empty, clean. */
  lemma {:induction false} TokensShape(s: string)
    ensures forall t :: t in Tokens(s) ==> ',' !in t && (t == "" || Clean(t))
  {
    var inner := Trim(s, Brackets);
    if inner != "" {
      var raws := Split(inner, ',');
      SplitShape(inner, ',');
      var ts := TrimAll(raws);
      forall i | 0 <= i < |ts| ensures ',' !in ts[i] && (ts[i] == "" || Clean(ts[i])) {
        TrimmedPartOf(raws[i]);
        TrimShape(raws[i], WhiteSpace);
      }
    }
  }

  /** Whatever TrimSpace keeps was in its input. */
  lemma {:induction false} TrimmedPartOf(raw: string)
    ensures forall c :: c in TrimSpace(raw) ==> c in raw
  {
    var l := TrimLeft(raw, WhiteSpace);
    TrimLeftShape(raw, WhiteSpace);
    TrimRightShape(l, WhiteSpace);
    assert TrimSpace(raw) == l[..|TrimSpace(raw)|];
  }

  lemma {:induction false} NonEmptyKeepsAll(xs: seq<string>)
    requires forall i :: 0 <= i < |xs| ==> xs[i] != ""
    ensures NonEmpty(xs) == xs
  {
    if xs != [] {
      NonEmptyKeepsAll(xs[1..]);
    }
  }

  /** Join with ", " is Join with "," over the parts after the first carrying a leading blank. */
  function Blanked(xs: seq<string>): (r: seq<string>)
    ensures |r| == |xs|
    ensures forall i :: 0 <= i < |xs| ==> r[i] == " " + xs[i]
  {
    seq(|xs|, i requires 0 <= i < |xs| => " " + xs[i])
  }

  lemma {:induction false} JoinBlanked(xs: seq<string>)
    requires |xs| >= 1
    ensures Join(Blanked(xs), ",") == " " + Join(xs, ", ")
    decreases |xs|
  {
    if |xs| > 1 {
      JoinBlanked(xs[1..]);
      assert Blanked(xs)[1..] == Blanked(xs[1..]);
    }
  }

  lemma {:induction false} JoinCommaBlank(ids: seq<string>)
    requires |ids| >= 1
    ensures Join(ids, ", ") == Join([ids[0]] + Blanked(ids[1..]), [','])
  {
    if |ids| > 1 {
      var rest := Join(ids[1..], ", ");
      JoinBlanked(ids[1..]);
      JoinCons(ids[0], Blanked(ids[1..]), [',']);
      JoinCons(ids[0], ids[1..], ", ");
      assert [ids[0]] + ids[1..] == ids;
      assert ids[0] + [','] + (" " + rest) == ids[0] + ", " + rest;
    } else {
      assert [ids[0]] + Blanked(ids[1..]) == ids;
    }
  }

  lemma {:induction false} SplitEncoded(ids: seq<string>)
    requires |ids| >= 1
    requires forall i :: 0 <= i < |ids| ==> ',' !in ids[i]
    ensures Split(Join(ids, ", "), ',') == [ids[0]] + Blanked(ids[1..])
  {
    var parts := [ids[0]] + Blanked(ids[1..]);
    JoinCommaBlank(ids);
    assert forall i :: 0 <= i < |parts| ==> ',' !in parts[i];
    SplitJoin(parts, ',');
  }

  lemma {:induction false} JoinEnds(ids: seq<string>)
    requires |ids| >= 1
    requires forall i :: 0 <= i < |ids| ==> ids[i] != ""
    ensures var j := Join(ids, ", ");
      j != "" && j[0] == ids[0][0] && j[|j| - 1] == ids[|ids| - 1][|ids[|ids| - 1]| - 1]
  {
    if |ids| > 1 {
      JoinEnds(ids[1..]);
    }
  }

  /** Trimming the brackets off an encoded non-empty list leaves the joined ids. */
  lemma {:induction false} TrimEncoded(ids: seq<string>)
    requires |ids| >= 1
    requires forall i :: 0 <= i < |ids| ==> WellFormedId(ids[i])
    ensures Trim(Encode(ids), Brackets) == Join(ids, ", ")
  {
    var j := Join(ids, ", ");
    JoinEnds(ids);
    var e := Encode(ids);
    TrimRightShape(j + "]", Brackets);
    assert e[1..] == j + "]";
    assert TrimLeft(e, Brackets) == TrimLeft(j + "]", Brackets) == j + "]";
    assert (j + "]")[..|j|] == j;
  }

  /** Trimming white space off the split parts of a joined list gives the ids back. */
  lemma {:induction false} TrimBlanked(ids: seq<string>)
    requires |ids| >= 1
    requires forall i :: 0 <= i < |ids| ==> WellFormedId(ids[i])
    ensures TrimAll([ids[0]] + Blanked(ids[1..])) == ids
  {
    var parts := [ids[0]] + Blanked(ids[1..]);
    forall i | 0 <= i < |ids| ensures TrimSpace(parts[i]) == ids[i] {
      if i == 0 {
        TrimNoop(ids[0], WhiteSpace);
      } else {
        assert parts[i] == " " + ids[i];
        TrimSpaceBlank(ids[i]);
      }
    }
  }

  /** parseReviewers inverts the encoder on lists of well-formed ids. */
  lemma {:induction false} ParseEncode(ids: seq<string>)
    requires forall i :: 0 <= i < |ids| ==> WellFormedId(ids[i])
    ensures Tokens(Encode(ids)) == ids
    ensures ParseReviewers(Encode(ids)) == ids
  {
    if ids == [] {
      assert Encode(ids) == "[]";
      assert TrimLeft("[]", Brackets) == "";
    } else {
      TrimEncoded(ids);
      JoinEnds(ids);
      SplitEncoded(ids);
      TrimBlanked(ids);
      NonEmptyKeepsAll(ids);
    }
  }
}
