/**
 * The Mode enumeration of the logbook: a closed set of radio transmission
 * modes, each a singleton carrying its description. Two external encodings of
 * the ADIF mode field, a small integer code and a name string, are each
 * resolved back to a mode through a lookup table whose fallback, for any
 * unregistered key, is Unknown.
 */
module Modes {
  import opened LookupTable

  /**
   * Every mode the class defines. A constructor stands for one of the
   * class's singleton constants, so two modes are the same exactly when
   * they are the same constant.
   */
  datatype Mode =
    | Blank
    | Unknown
    | LSB
    | USB
    | SSB
    | CW
    | FM
    | AM
    | ASCI
    | ATV
    | CLO
    | FAX
    | FSK
    | FSK441
    | GTOR
    | HELL
    | HFSK
    | JT44
    | JT65
    | MFSK8
    | MFSK16
    | MTTY
    | MT63
    | OLIVIA
    | PAC
    | PAC2
    | PAC3
    | PCW
    | PKT
    | PSK31
    | PSK63
    | PSK125
    | Q15
    | RTTY
    | SSTV
    | THRB
    | TOR
    | FT8
    | FT4
    | MSK144
    | WSPR
    | THOR
    | DOMINO
    | FREEDV

  /** The description each constant is constructed with; rendering a mode returns it. */
  function ToString(m: Mode): string {
    match m
    case Blank => ""
    case Unknown => "Unknown"
    case LSB => "LSB"
    case USB => "USB"
    case SSB => "SSB"
    case CW => "CW"
    case FM => "FM"
    case AM => "AM"
    case ASCI => "ASCI"
    case ATV => "ATV"
    case CLO => "CLO"
    case FAX => "FAX"
    case FSK => "FSK"
    case FSK441 => "FSK441"
    case GTOR => "GTOR"
    case HELL => "HELL"
    case HFSK => "HFSK"
    case JT44 => "JT44"
    case JT65 => "JT65"
    case MFSK8 => "MFSK8"
    case MFSK16 => "MFSK16"
    case MTTY => "MTTY"
    case MT63 => "MT63"
    case OLIVIA => "OLIVIA"
    case PAC => "PAC"
    case PAC2 => "PAC2"
    case PAC3 => "PAC3"
    case PCW => "PCW"
    case PKT => "PKT"
    case PSK31 => "PSK31"
    case PSK63 => "PSK63"
    case PSK125 => "PSK125"
    case Q15 => "Q15"
    case RTTY => "RTTY"
    case SSTV => "SSTV"
    case THRB => "THRB"
    case TOR => "TOR"
    case FT8 => "FT8"
    case FT4 => "FT4"
    case MSK144 => "MSK144"
    case WSPR => "WSPR"
    case THOR => "THOR"
    case DOMINO => "DOMINO"
    case FREEDV => "FREEDV"
  }

  /** The registry's ordered list of modes. Unknown is deliberately not in it. */
  const Values: seq<Mode> := [
      Blank,
      LSB,
      USB,
      SSB,
      CW,
      FM,
      AM,
      ASCI,
      ATV,
      CLO,
      FAX,
      FSK,
      FSK441,
      GTOR,
      HELL,
      HFSK,
      JT44,
      JT65,
      MFSK8,
      MFSK16,
      MTTY,
      MT63,
      OLIVIA,
      PAC,
      PAC2,
      PAC3,
      PCW,
      PKT,
      PSK31,
      PSK63,
      PSK125,
      Q15,
      RTTY,
      SSTV,
      THRB,
      TOR,
      FT8,
      FT4,
      MSK144,
      WSPR,
      THOR,
      DOMINO,
      FREEDV
    ]

  /** The (integer code, mode) associations, written out as the class declares them. */
  const IntLookupData: seq<(int, Mode)> := [
      (0, Blank),
      (1, LSB),
      (2, USB),
      (3, SSB),
      (4, CW),
      (5, FM),
      (6, AM),
      (7, ASCI),
      (8, ATV),
      (9, CLO),
      (10, FAX),
      (11, FSK),
      (12, FSK441),
      (13, GTOR),
      (14, HELL),
      (15, HFSK),
      (16, JT44),
      (17, JT65),
      (18, MFSK8),
      (19, MFSK16),
      (20, MTTY),
      (21, MT63),
      (22, OLIVIA),
      (23, PAC),
      (24, PAC2),
      (25, PAC3),
      (26, PCW),
      (27, PKT),
      (28, PSK31),
      (29, PSK63),
      (30, PSK125),
      (31, Q15),
      (32, RTTY),
      (33, SSTV),
      (34, THRB),
      (35, TOR),
      (36, FT8),
      (37, FT4),
      (38, MSK144),
      (39, WSPR),
      (40, THOR),
      (41, DOMINO),
      (42, FREEDV)
    ]

  /** The (name, mode) associations, written out as the class declares them. */
  const StrLookupData: seq<(string, Mode)> := [
      ("", Blank),
      ("Unknown", Unknown),
      ("SSB", SSB),
      ("CW", CW),
      ("RTTY", RTTY),
      ("TOR", TOR),
      ("PKT", PKT),
      ("AM", AM),
      ("FM", FM),
      ("SSTV", SSTV),
      ("ATV", ATV),
      ("PAC", PAC),
      ("CLO", CLO),
      ("FAX", FAX),
      ("FSK", FSK),
      ("FSK441", FSK441),
      ("GTOR", GTOR),
      ("HELL", HELL),
      ("HFSK", HFSK),
      ("JT44", JT44),
      ("JT65", JT65),
      ("MFSK8", MFSK8),
      ("MFSK16", MFSK16),
      ("MTTY", MTTY),
      ("MT63", MT63),
      ("OLIVIA", OLIVIA),
      ("PAC2", PAC2),
      ("PAC3", PAC3),
      ("PCW", PCW),
      ("PSK31", PSK31),
      ("PSK63", PSK63),
      ("PSK125", PSK125),
      ("Q15", Q15),
      ("THRB", THRB),
      ("TOR", TOR),
      ("FT8", FT8),
      ("FT4", FT4),
      ("MSK144", MSK144),
      ("WSPR", WSPR),
      ("DOMINO", DOMINO),
      ("FREEDV", FREEDV)
    ]

  /** The registry members that no entry of the name table maps to. */
  const Unnamed: set<Mode> := {LSB, USB, ASCI, THOR}

  /** The table answering integer codes, with Unknown as its fallback. */
  const IntToModeType: Table<int, Mode> := Build(IntLookupData, Unknown)

  /** The table answering names, with Unknown as its fallback. */
  const StrToModeType: Table<string, Mode> := Build(StrLookupData, Unknown)

  /** The registry's modes, in declaration order. */
  function GetValues(): (r: seq<Mode>)
    ensures |r| == 43
    ensures forall m :: m in r <==> m != Unknown
    ensures forall i, j :: 0 <= i < j < |r| ==> r[i] != r[j]
  {
    ValuesEnumerateRegistry();
    Values
  }

  /** The integer-code table: code c answers the registry's mode at position c. */
  function GetIntToModeType(): (t: Table<int, Mode>)
    ensures t.fallback == Unknown
    ensures forall c :: c in t.entries <==> 0 <= c < |Values|
    ensures forall c :: c in t.entries ==> t.entries[c] == Values[c]
  {
    IntTableFollowsPositions();
    IntToModeType
  }

  /**
   * The name table: every key is the description of the mode it answers, and
   * the description of every mode outside Unnamed is a key.
   */
  function GetStrToModeType(): (t: Table<string, Mode>)
    ensures t.fallback == Unknown
    ensures t.entries.Keys == KeysOf(StrLookupData)
    ensures forall s :: s in t.entries ==> ToString(t.entries[s]) == s
    ensures forall m :: ToString(m) in t.entries <==> m !in Unnamed
  {
    StrTableFollowsDescriptions();
    NamedModes();
    StrToModeType
  }

  /** Resolves an integer code; any code outside 0..42 answers Unknown. */
  function ByCode(code: int): (m: Mode)
    ensures 0 <= code < |Values| ==> m == Values[code]
    ensures m == Unknown <==> !(0 <= code < |Values|)
  {
    PositionsOfValues();
    Resolve(GetIntToModeType(), code)
  }

  /**
   * Resolves a name by exact string equality; a registered name answers the
   * mode it describes, any other string answers Unknown.
   */
  function ByName(name: string): (m: Mode)
    ensures name in KeysOf(StrLookupData) ==> ToString(m) == name
    ensures name !in KeysOf(StrLookupData) ==> m == Unknown
  {
    Resolve(GetStrToModeType(), name)
  }

  /*
   * Facts about the constant tables. Each is proved by evaluating the tables;
   * they are split so that every single evaluation stays small.
   */

  /** Distinct modes render differently: the description identifies the mode. */
  lemma ToStringInjective()
    ensures forall m1, m2 :: ToString(m1) == ToString(m2) ==> m1 == m2
  {
    forall m
      ensures DescribedMode(ToString(m)) == m
    {
      DescriptionDecodes(m);
    }
  }

  /** Decoding a mode's description gives back the mode. */
  lemma DescriptionDecodes(m: Mode)
    ensures DescribedMode(ToString(m)) == m
  {
    ShortDescriptionsDecode(m);
    LongDescriptionsDecode(m);
  }

  /**
   * The mode a description belongs to, Unknown for a string that describes
   * no mode (a proof device: a left inverse of ToString, dispatching on the
   * length and the first character so that each case compares few strings).
   */
  ghost function DescribedMode(s: string): Mode {
    match |s|
    case 0 => Blank
    case 2 =>
      (match s[0]
      case 'C' => CW
      case 'F' => FM
      case 'A' => AM
      case _ => Unknown)
    case 3 =>
      (match s[0]
      case 'L' => LSB
      case 'U' => USB
      case 'S' => SSB
      case 'A' => ATV
      case 'C' => CLO
      case 'F' => if s == "FAX" then FAX else if s == "FSK" then FSK else if s == "FT8" then FT8 else FT4
      case 'P' => if s == "PAC" then PAC else if s == "PCW" then PCW else PKT
      case 'Q' => Q15
      case 'T' => TOR
      case _ => Unknown)
    case 4 =>
      (match s[0]
      case 'A' => ASCI
      case 'G' => GTOR
      case 'H' => if s == "HELL" then HELL else HFSK
      case 'J' => if s == "JT44" then JT44 else JT65
      case 'M' => if s == "MTTY" then MTTY else MT63
      case 'P' => if s == "PAC2" then PAC2 else PAC3
      case 'R' => RTTY
      case 'S' => SSTV
      case 'T' => if s == "THRB" then THRB else THOR
      case 'W' => WSPR
      case _ => Unknown)
    case 5 =>
      (match s[0]
      case 'M' => MFSK8
      case 'P' => if s == "PSK31" then PSK31 else PSK63
      case _ => Unknown)
    case 6 =>
      (match s[0]
      case 'F' => if s == "FSK441" then FSK441 else FREEDV
      case 'M' => if s == "MFSK16" then MFSK16 else MSK144
      case 'O' => OLIVIA
      case 'P' => PSK125
      case 'D' => DOMINO
      case _ => Unknown)
    case _ => Unknown
  }

  lemma ShortDescriptionsDecode(m: Mode)
    ensures |ToString(m)| <= 3 || |ToString(m)| == 7 ==> DescribedMode(ToString(m)) == m
  {
    match m
    case Blank =>
    case Unknown =>
    case LSB =>
    case USB =>
    case SSB =>
    case CW =>
    case FM =>
    case AM =>
    case ATV =>
    case CLO =>
    case FAX =>
    case FSK =>
    case PAC =>
    case PCW =>
    case PKT =>
    case Q15 =>
    case TOR =>
    case FT8 =>
    case FT4 =>
    case _ =>
  }

  lemma LongDescriptionsDecode(m: Mode)
    ensures 4 <= |ToString(m)| <= 6 ==> DescribedMode(ToString(m)) == m
  {
    match m
    case ASCI =>
    case FSK441 =>
    case GTOR =>
    case HELL =>
    case HFSK =>
    case JT44 =>
    case JT65 =>
    case MFSK8 =>
    case MFSK16 =>
    case MTTY =>
    case MT63 =>
    case OLIVIA =>
    case PAC2 =>
    case PAC3 =>
    case PSK31 =>
    case PSK63 =>
    case PSK125 =>
    case RTTY =>
    case SSTV =>
    case THRB =>
    case MSK144 =>
    case WSPR =>
    case THOR =>
    case DOMINO =>
    case FREEDV =>
    case _ =>
  }

  /** The facts GetValues promises, proved from the registry positions. */
  lemma ValuesEnumerateRegistry()
    ensures |Values| == 43
    ensures forall m :: m in Values <==> m != Unknown
    ensures forall i, j :: 0 <= i < j < |Values| ==> Values[i] != Values[j]
  {
    PositionsOfValues();
    ValuesAtPositions();
  }

  /** Position of each mode in the registry's list, which is also its integer code; -1 for Unknown. */
  ghost function Position(m: Mode): int {
    match m
    case Blank => 0
    case LSB => 1
    case USB => 2
    case SSB => 3
    case CW => 4
    case FM => 5
    case AM => 6
    case ASCI => 7
    case ATV => 8
    case CLO => 9
    case FAX => 10
    case FSK => 11
    case FSK441 => 12
    case GTOR => 13
    case HELL => 14
    case HFSK => 15
    case JT44 => 16
    case JT65 => 17
    case MFSK8 => 18
    case MFSK16 => 19
    case MTTY => 20
    case MT63 => 21
    case OLIVIA => 22
    case PAC => 23
    case PAC2 => 24
    case PAC3 => 25
    case PCW => 26
    case PKT => 27
    case PSK31 => 28
    case PSK63 => 29
    case PSK125 => 30
    case Q15 => 31
    case RTTY => 32
    case SSTV => 33
    case THRB => 34
    case TOR => 35
    case FT8 => 36
    case FT4 => 37
    case MSK144 => 38
    case WSPR => 39
    case THOR => 40
    case DOMINO => 41
    case FREEDV => 42
    case Unknown => -1
  }

  lemma PositionsOfValues()
    ensures forall i :: 0 <= i < |Values| ==> Position(Values[i]) == i
  {
    PositionsOfValuesFrom0();
    PositionsOfValuesFrom11();
    PositionsOfValuesFrom22();
    PositionsOfValuesFrom33();
  }

  lemma PositionsOfValuesFrom0()
    ensures forall i :: 0 <= i < 11 ==> Position(Values[i]) == i
  {
  }

  lemma PositionsOfValuesFrom11()
    ensures forall i :: 11 <= i < 22 ==> Position(Values[i]) == i
  {
  }

  lemma PositionsOfValuesFrom22()
    ensures forall i :: 22 <= i < 33 ==> Position(Values[i]) == i
  {
  }

  lemma PositionsOfValuesFrom33()
    ensures forall i :: 33 <= i < |Values| ==> Position(Values[i]) == i
  {
  }

  lemma ValuesAtPositions()
    ensures forall m :: m != Unknown ==> 0 <= Position(m) < |Values| && Values[Position(m)] == m
  {
  }

  /** The integer table mimics the registry: entry i is (i, Values[i]). */
  lemma IntLookupMimicsValues()
    ensures |IntLookupData| == |Values|
    ensures forall i :: 0 <= i < |Values| ==> IntLookupData[i] == (i, Values[i])
  {
  }

  /** Every name key is the description of the mode it is paired with. */
  lemma StrKeysAreDescriptions()
    ensures forall i :: 0 <= i < |StrLookupData| ==> ToString(StrLookupData[i].1) == StrLookupData[i].0
  {
    EntriesAtNameSlots();
    NameSlotsLocateEntries();
    UnnamedHaveNoEntry();
    TorEntries();
  }

  /** The description of a mode is a name key exactly when the mode is outside Unnamed. */
  lemma NamedModes()
    ensures forall m :: ToString(m) in KeysOf(StrLookupData) <==> m !in Unnamed
  {
    StrKeysAreDescriptions();
    ToStringInjective();
    UnnamedHaveNoEntry();
    NameSlotsLocateEntries();
    forall m | m !in Unnamed
      ensures ToString(m) in KeysOf(StrLookupData)
    {
      assert StrLookupData[NameSlot(m)].0 == ToString(m);
    }
    forall m | ToString(m) in KeysOf(StrLookupData)
      ensures m !in Unnamed
    {
      var i :| 0 <= i < |StrLookupData| && StrLookupData[i].0 == ToString(m);
      assert ToString(StrLookupData[i].1) == ToString(m);
    }
  }

  /** Index of the last name-table entry for each mode, -1 when there is none (a proof device). */
  ghost function NameSlot(m: Mode): int {
    match m
    case Blank => 0
    case Unknown => 1
    case SSB => 2
    case CW => 3
    case RTTY => 4
    case TOR => 34
    case PKT => 6
    case AM => 7
    case FM => 8
    case SSTV => 9
    case ATV => 10
    case PAC => 11
    case CLO => 12
    case FAX => 13
    case FSK => 14
    case FSK441 => 15
    case GTOR => 16
    case HELL => 17
    case HFSK => 18
    case JT44 => 19
    case JT65 => 20
    case MFSK8 => 21
    case MFSK16 => 22
    case MTTY => 23
    case MT63 => 24
    case OLIVIA => 25
    case PAC2 => 26
    case PAC3 => 27
    case PCW => 28
    case PSK31 => 29
    case PSK63 => 30
    case PSK125 => 31
    case Q15 => 32
    case THRB => 33
    case FT8 => 35
    case FT4 => 36
    case MSK144 => 37
    case WSPR => 38
    case DOMINO => 39
    case FREEDV => 40
    case _ => -1
  }

  lemma NameSlotsLocateEntries()
    ensures forall m :: m !in Unnamed ==> 0 <= NameSlot(m) < |StrLookupData| && StrLookupData[NameSlot(m)] == (ToString(m), m)
  {
  }

  /** Every entry but the first of the two "TOR" entries is the last entry for its mode. */
  lemma EntriesAtNameSlots()
    ensures forall i :: 0 <= i < |StrLookupData| ==> i == 5 || NameSlot(StrLookupData[i].1) == i
  {
    EntriesAtNameSlotsFrom0();
    EntriesAtNameSlotsFrom11();
    EntriesAtNameSlotsFrom21();
    EntriesAtNameSlotsFrom31();
  }

  lemma EntriesAtNameSlotsFrom0()
    ensures forall i :: 0 <= i < 11 ==> i == 5 || NameSlot(StrLookupData[i].1) == i
  {
  }

  lemma EntriesAtNameSlotsFrom11()
    ensures forall i :: 11 <= i < 21 ==> NameSlot(StrLookupData[i].1) == i
  {
  }

  lemma EntriesAtNameSlotsFrom21()
    ensures forall i :: 21 <= i < 31 ==> NameSlot(StrLookupData[i].1) == i
  {
  }

  lemma EntriesAtNameSlotsFrom31()
    ensures forall i :: 31 <= i < |StrLookupData| ==> NameSlot(StrLookupData[i].1) == i
  {
  }

  /** The name "TOR" is entered twice, both times for TOR. */
  lemma TorEntries()
    ensures StrLookupData[5] == StrLookupData[34] == ("TOR", TOR)
  {
  }

  lemma UnnamedHaveNoEntry()
    ensures forall i :: 0 <= i < |StrLookupData| ==> StrLookupData[i].1 !in Unnamed
  {
  }

  /** Code c is a key of the integer table exactly when 0 <= c < 43, and it answers Values[c]. */
  lemma IntTableFollowsPositions()
    ensures forall c :: c in IntToModeType.entries <==> 0 <= c < |Values|
    ensures forall c :: 0 <= c < |Values| ==> IntToModeType.entries[c] == Values[c]
  {
    IntLookupMimicsValues();
    forall c | 0 <= c < |Values|
      ensures c in KeysOf(IntLookupData) && IntToModeType.entries[c] == Values[c]
    {
      assert IntLookupData[c].0 == c;
      InsertLastWins(IntLookupData, c);
    }
  }

  /** Every key of the name table answers the mode it describes. */
  lemma StrTableFollowsDescriptions()
    ensures forall s :: s in StrToModeType.entries ==> ToString(StrToModeType.entries[s]) == s
  {
    StrKeysAreDescriptions();
    forall s | s in StrToModeType.entries
      ensures ToString(StrToModeType.entries[s]) == s
    {
      ResolveBuilt(StrLookupData, Unknown, s);
    }
  }
}
