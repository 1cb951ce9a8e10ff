/** The composite `type` column: a category, plus a free-text reason when the
    category is "Others", joined by " - " (app.py:47, 124, 137). */
module TaskType {
  import opened Wrappers
  import opened Strings
  import opened Tasks

  const SEPARATOR: string := " - "

  /** The stored `type` value for a category and a reason (app.py:47, 137). */
  function Compose(category: string, reason: string): string
  {
    if category == OTHERS then category + SEPARATOR + reason else category
  }

  /** The stored `type` split on the first " - " into (category, reason);
      without a separator the whole value is the category (app.py:124). */
  function Split(stored: string): (string, string)
  {
    match IndexOf(stored, SEPARATOR)
    case Some(i) => (stored[..i], stored[i + |SEPARATOR|..])
    case None => (stored, "")
  }

  /** Splitting loses nothing: re-joining the parts gives the stored value back,
      and the category part never contains the separator. */
  lemma SplitJoin(stored: string)
    ensures var (category, reason) := Split(stored);
      && (Contains(stored, SEPARATOR) ==> stored == category + SEPARATOR + reason)
      && (!Contains(stored, SEPARATOR) ==> category == stored && reason == "")
      && !Contains(category, SEPARATOR)
  {
    match IndexOf(stored, SEPARATOR)
    case Some(i) =>
      var category := stored[..i];
      assert stored == category + SEPARATOR + stored[i + |SEPARATOR|..];
      forall j: nat ensures !MatchesAt(category, SEPARATOR, j) {
        if MatchesAt(category, SEPARATOR, j) {
          assert category[j..j + |SEPARATOR|] == stored[j..j + |SEPARATOR|];
          assert MatchesAt(stored, SEPARATOR, j);
          assert false;
        }
      }
      NoMatch(category, SEPARATOR);
    case None =>
  }

  /** The characters before the first separator of "Others - r" are letters, so
      the first " - " is the one `Compose` put there. */
  lemma OthersSeparatorFirst(reason: string)
    ensures IndexOf(OTHERS + SEPARATOR + reason, SEPARATOR) == Some(|OTHERS|)
  {
    var s := OTHERS + SEPARATOR + reason;
    assert s[|OTHERS|..|OTHERS| + |SEPARATOR|] == SEPARATOR;
    forall j: nat | j < |OTHERS| ensures !MatchesAt(s, SEPARATOR, j) {
      assert s[j] == OTHERS[j] != ' ';
      assert s[j..j + |SEPARATOR|][0] == s[j];
    }
    FirstMatch(s, SEPARATOR, |OTHERS|);
  }

  /** No category of the fixed list contains the separator. */
  lemma CategoryHasNoSeparator(category: string)
    requires category in CATEGORIES
    ensures !Contains(category, SEPARATOR)
  {
    forall j: nat ensures !MatchesAt(category, SEPARATOR, j) {
      if j + |SEPARATOR| <= |category| {
        assert category[j..j + |SEPARATOR|][1] == category[j + 1] != '-';
      }
    }
    NoMatch(category, SEPARATOR);
  }

  /** Round trip: decoding what the add or edit form stored gives back the
      category, and the reason exactly when the category is "Others" -- also
      for an empty reason and for a reason that itself contains " - ". */
  lemma {:induction false} SplitCompose(category: string, reason: string)
    requires category in CATEGORIES
    ensures Split(Compose(category, reason)) == (category, if category == OTHERS then reason else "")
  {
    if category == OTHERS {
      OthersSeparatorFirst(reason);
      assert (OTHERS + SEPARATOR + reason)[..|OTHERS|] == OTHERS;
      assert (OTHERS + SEPARATOR + reason)[|OTHERS| + |SEPARATOR|..] == reason;
    } else {
      CategoryHasNoSeparator(category);
    }
  }

  /** Re-composing the split parts reproduces the stored value exactly when the
      separator is present iff the category is "Others". A stored "Others" with
      no reason, or "Pro - x", is therefore not reproduced. */
  lemma RecomposeIff(stored: string)
    ensures var (category, reason) := Split(stored);
      Compose(category, reason) == stored <==> (category == OTHERS <==> Contains(stored, SEPARATOR))
  {
    SplitJoin(stored);
    var (category, reason) := Split(stored);
    if Contains(stored, SEPARATOR) && category != OTHERS {
      assert |Compose(category, reason)| < |stored|;
    }
    if !Contains(stored, SEPARATOR) && category == OTHERS {
      assert |Compose(category, reason)| > |stored|;
    }
  }
}
