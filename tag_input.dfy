/** The edit form's comma-separated tag field, as the edit handler turns it into
    a tag set (Main.java, the loop before the entry is updated). */
module TagInput {
  import opened Wrappers
  import opened JavaStrings

  /** The set of the trimmed pieces, accumulated in the order the loop adds them. */
  function TrimmedPieces(ps: seq<string>): set<string>
    decreases |ps|
  {
    if ps == [] then {} else TrimmedPieces(ps[..|ps| - 1]) + {Trim(ps[|ps| - 1])}
  }

  /** A tag is in the set exactly when some piece trims to it. */
  lemma {:induction false} TrimmedPiecesMembers(ps: seq<string>, t: string)
    ensures t in TrimmedPieces(ps) <==> exists i :: 0 <= i < |ps| && Trim(ps[i]) == t
    decreases |ps|
  {
    if ps != [] {
      var init := ps[..|ps| - 1];
      TrimmedPiecesMembers(init, t);
      assert forall i :: 0 <= i < |init| ==> init[i] == ps[i];
    }
  }

  /** The tag set a (possibly absent) input denotes: empty for a null or blank input,
      otherwise the trimmed pieces of `split(",")`. */
  function TagSet(tagsInput: Option<string>): set<string>
  {
    if tagsInput.Some? && Trim(tagsInput.value) != [] then
      TrimmedPieces(Split(tagsInput.value, ','))
    else
      {}
  }

  method ParseTags(tagsInput: Option<string>) returns (tags: set<string>)
    ensures tags == TagSet(tagsInput)
  {
    tags := {};
    if tagsInput.Some? && Trim(tagsInput.value) != [] {
      var tagsArray := Split(tagsInput.value, ',');
      for i := 0 to |tagsArray|
        invariant tags == TrimmedPieces(tagsArray[..i])
      {
        assert tagsArray[..i + 1][..i] == tagsArray[..i];
        tags := tags + {Trim(tagsArray[i])};
      }
      assert tagsArray[..|tagsArray|] == tagsArray;
    }
  }

  /** A null or whitespace-only input gives no tags. */
  lemma BlankInputHasNoTags(tagsInput: Option<string>)
    requires tagsInput.None? || IsBlank(tagsInput.value)
    ensures TagSet(tagsInput) == {}
  {
    if tagsInput.Some? {
      TrimEmptyIffBlank(tagsInput.value);
    }
  }

  /** An input that is not blank and holds something besides commas gives at least one tag. */
  lemma NonBlankInputHasTags(s: string, k: nat)
    requires !IsBlank(s)
    requires k < |s| && s[k] != ','
    ensures TagSet(Some(s)) != {}
  {
    TrimEmptyIffBlank(s);
    var ps := Split(s, ',');
    SplitJoin(s, ',');
    TrimmedPiecesMembers(ps, Trim(ps[0]));
  }

  /** An input of commas alone is not blank, yet `split` leaves no piece of it: no tags. */
  lemma CommasOnlyHaveNoTags(s: string)
    requires s != []
    requires forall i :: 0 <= i < |s| ==> s[i] == ','
    ensures !IsBlank(s)
    ensures TagSet(Some(s)) == {}
  {
    assert !IsTrimmable(s[0]);
    var ps := SplitAll(s, ',');
    forall i | 0 <= i < |ps| ensures ps[i] == [] {
      if ps[i] != [] {
        assert ps[i][0] in Join(ps, ',') by {
          JoinHolds(ps, ',', i, 0);
        }
      }
    }
  }

  /** Every character of every piece appears in the joined string. */
  lemma {:induction false} JoinHolds(ps: seq<string>, sep: char, i: nat, j: nat)
    requires i < |ps| && j < |ps[i]|
    ensures ps[i][j] in Join(ps, sep)
    decreases |ps|
  {
    if i > 0 {
      JoinHolds(ps[1..], sep, i - 1, j);
    } else if |ps| > 1 {
      assert Join(ps, sep)[j] == ps[0][j];
    }
  }

  /** No tag has leading or trailing whitespace, and none contains a comma. */
  lemma TagsAreTrimmed(tagsInput: Option<string>, t: string)
    requires t in TagSet(tagsInput)
    ensures Trim(t) == t
    ensures t == [] || (!IsTrimmable(t[0]) && !IsTrimmable(t[|t| - 1]))
    ensures ',' !in t
  {
    var ps := Split(tagsInput.value, ',');
    TrimmedPiecesMembers(ps, t);
    var i :| 0 <= i < |ps| && Trim(ps[i]) == t;
    TrimIsTrimmedSlice(ps[i]);
    TrimIdempotent(ps[i]);
    TrimChars(ps[i], ',');
  }

  lemma SplitOfExample()
    ensures Split(" a, b ,  ,c", ',') == [" a", " b ", "  ", "c"]
  {
    var s := " a, b ,  ,c";
    var ps := [" a", " b ", "  ", "c"];
    assert Join(ps, ',') == s;
    SplitAllJoin(ps, ',');
    assert s[2] == ',';
  }

  lemma TrimsOfExample()
    ensures Trim(" a") == "a" && Trim(" b ") == "b" && Trim("  ") == "" && Trim("c") == "c"
  {
  }

  lemma TrimmedPiecesOfExample()
    ensures TrimmedPieces([" a", " b ", "  ", "c"]) == {"a", "b", "", "c"}
  {
    var p1, p2, p3, p4 := [" a"], [" a", " b "], [" a", " b ", "  "], [" a", " b ", "  ", "c"];
    TrimsOfExample();
    assert p4[..3] == p3 && p3[..2] == p2 && p2[..1] == p1 && p1[..0] == [];
    assert TrimmedPieces(p1) == {"a"};
    assert TrimmedPieces(p2) == {"a", "b"};
    assert TrimmedPieces(p3) == {"a", "b", ""};
  }

  /** A piece that is blank only after trimming is not dropped: it becomes the empty tag.
      Only the trailing pieces that are empty before trimming disappear. */
  lemma BlankPieceIsKept()
    ensures TagSet(Some(" a, b ,  ,c")) == {"a", "b", "", "c"}
  {
    var s := " a, b ,  ,c";
    TrimEmptyIffBlank(s);
    assert !IsTrimmable(s[1]);
    SplitOfExample();
    TrimmedPiecesOfExample();
  }

  lemma SplitOfTrailingCommas()
    ensures Split("a,,", ',') == ["a"]
  {
    var s := "a,,";
    var ps := ["a", "", ""];
    assert Join(ps, ',') == s;
    SplitAllJoin(ps, ',');
    assert s[1] == ',';
    assert DropTrailingEmpty(ps) == ["a"];
  }

  /** Trailing empty pieces are dropped by `split`, so trailing commas add no tag. */
  lemma TrailingCommasAddNothing()
    ensures TagSet(Some("a,,")) == {"a"}
  {
    SplitOfTrailingCommas();
    assert Trim("a") == "a";
    TrimEmptyIffBlank("a,,");
    assert !IsTrimmable("a,,"[0]);
    assert ["a"][..0] == [];
  }
}
