/**
 * Laws of the two encodings as a client sees them: a mode and its name, a
 * mode and its integer code, and the fallback answered for everything else.
 */
module ModeLaws {
  import opened LookupTable
  import opened Modes

  /**
   * Name lookup inverts rendering on the modes that own a name entry: a
   * string answers a mode other than Unknown exactly when it is that mode's
   * description and the mode is not one of the unnamed ones.
   */
  lemma ByNameInvertsToString(s: string, m: Mode)
    requires m != Unknown
    ensures ByName(s) == m <==> ToString(m) == s && m !in Unnamed
  {
    var t := GetStrToModeType();
    if ByName(s) == m {
      assert s in t.entries;
    }
    if ToString(m) == s && m !in Unnamed {
      ToStringInjective();
    }
  }

  /**
   * Rendering and then looking up the name gives the mode back, except for
   * the four modes without a name entry, whose description answers Unknown.
   */
  lemma NameRoundTrip(m: Mode)
    ensures ByName(ToString(m)) == m <==> m !in Unnamed
    ensures m in Unnamed ==> ByName(ToString(m)) == Unknown
  {
    var t := GetStrToModeType();
    if m !in Unnamed {
      ToStringInjective();
      assert ToString(t.entries[ToString(m)]) == ToString(m);
    }
  }

  /** The four unnamed modes are registry members all the same. */
  lemma UnnamedAreRegistered()
    ensures forall m :: m in Unnamed ==> m in GetValues() && ByName(ToString(m)) == Unknown
  {
    forall m | m in Unnamed
      ensures ByName(ToString(m)) == Unknown
    {
      NameRoundTrip(m);
    }
  }

  /**
   * The name "Unknown" is itself registered, so Unknown answers both the
   * registered name "Unknown" and every unregistered string.
   */
  lemma ByNameUnknown(s: string)
    ensures ByName(s) == Unknown <==> s !in KeysOf(StrLookupData) || s == "Unknown"
  {
    var t := GetStrToModeType();
    ToStringInjective();
    if s == "Unknown" {
      assert ToString(Unknown) == s;
    }
  }

  /** The empty string is a registered name answering Blank, not the fallback. */
  lemma EmptyNameIsBlank()
    ensures "" in KeysOf(StrLookupData)
    ensures ByName("") == Blank
    ensures Blank != Unknown
  {
    assert StrLookupData[0].0 == "";
    ByNameInvertsToString("", Blank);
  }

  /** Registered names answer their modes, the twice-entered "TOR" included. */
  lemma RegisteredNamesResolve()
    ensures ByName("SSB") == SSB
    ensures ByName("TOR") == TOR
  {
    NameRoundTrip(SSB);
    NameRoundTrip(TOR);
  }

  /**
   * Name lookup, described without the table: decode the string as a
   * description; the decoded mode is the answer when the string really is
   * its description and the mode owns a name entry, and Unknown otherwise.
   */
  lemma ByNameDecodesDescription(s: string)
    ensures var d := DescribedMode(s);
      ByName(s) == if ToString(d) == s && d !in Unnamed then d else Unknown
  {
    var d := DescribedMode(s);
    if ToString(d) == s && d !in Unnamed {
      if d == Unknown {
        ByNameUnknown(s);
      } else {
        ByNameInvertsToString(s, d);
      }
    } else if ByName(s) != Unknown {
      ByNameInvertsToString(s, ByName(s));
      DescriptionDecodes(ByName(s));
    }
  }

  /** Names are matched exactly, with no case folding: "ssb" answers Unknown. */
  lemma NamesAreCaseSensitive()
    ensures ByName("ssb") == Unknown
  {
    ByNameDecodesDescription("ssb");
  }

  /** Names are matched exactly, with no trimming: " SSB" answers Unknown. */
  lemma NamesAreNotTrimmed()
    ensures ByName(" SSB") == Unknown
  {
    ByNameDecodesDescription(" SSB");
  }

  /**
   * Every mode other than Unknown has exactly one integer code, its position
   * in the registry, and Unknown has none.
   */
  lemma CodeRoundTrip(m: Mode, c: int)
    ensures m != Unknown ==> (ByCode(c) == m <==> c == Position(m))
    ensures ByCode(c) == Unknown <==> c < 0 || 43 <= c
  {
    ValuesEnumerateRegistry();
    PositionsOfValues();
    ValuesAtPositions();
  }

  /**
   * The two encodings agree: the mode a code answers is recovered from its
   * name exactly when that mode has a name entry.
   */
  lemma CodeAndNameAgree(c: int)
    requires 0 <= c < 43
    ensures ByName(ToString(ByCode(c))) == ByCode(c) <==> ByCode(c) !in Unnamed
    ensures ByCode(c) != Unknown
  {
    NameRoundTrip(ByCode(c));
  }

  /** Equal names always carry equal modes, the repeated "TOR" entry included. */
  lemma NameEntriesConsistent()
    ensures Consistent(StrLookupData)
  {
    StrKeysAreDescriptions();
    ToStringInjective();
  }

  /**
   * The repeated "TOR" entry is harmless: inserting first-wins or last-wins
   * builds the same name table.
   */
  lemma DuplicateNameHarmless()
    ensures InsertFirstWins(StrLookupData) == StrToModeType.entries
  {
    NameEntriesConsistent();
    ConsistentInsertOrderIrrelevant(StrLookupData);
  }
}
