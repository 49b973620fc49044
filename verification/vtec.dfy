/** The lookup tables for Valid Time Event Codes (VTEC) of National Weather
    Service watches, warnings and advisories: phenomenon, significance and
    geometry type. Each table is a datatype with one constructor per code, the
    code's text, what the table gives for it, and a decoder from text. */
module Vtec {
  import opened Common

  // ---------------------------------------------------------------------------
  // Phenomena

  /** The phenomenon codes. */
  datatype PhenomCode =
    AF | AS | BH | BW | BZ | CF | DF | DS | DU | EC | EH | EW
    | FA | FF | FG | FL | FR | FW | FZ | GL | HF | HT | HU | HW
    | HY | HZ | IS | LE | LO | LS | LW | MA | MF | MH | MS | RB
    | RP | SC | SE | SI | SM | SR | SS | SQ | SU | SV | SW | TO
    | TR | TS | TY | UP | WC | WI | WS | WW | ZF | ZR | ZY

  /** The two-character text of a phenomenon code. */
  function PhenomText(p: PhenomCode): (s: string)
  {
    [FirstLetter(p), SecondLetter(p)]
  }

  function FirstLetter(p: PhenomCode): char
  {
    match p
    case AF => 'A'
    case AS => 'A'
    case BH => 'B'
    case BW => 'B'
    case BZ => 'B'
    case CF => 'C'
    case DF => 'D'
    case DS => 'D'
    case DU => 'D'
    case EC => 'E'
    case EH => 'E'
    case EW => 'E'
    case FA => 'F'
    case FF => 'F'
    case FG => 'F'
    case FL => 'F'
    case FR => 'F'
    case FW => 'F'
    case FZ => 'F'
    case GL => 'G'
    case HF => 'H'
    case HT => 'H'
    case HU => 'H'
    case HW => 'H'
    case HY => 'H'
    case HZ => 'H'
    case IS => 'I'
    case LE => 'L'
    case LO => 'L'
    case LS => 'L'
    case LW => 'L'
    case MA => 'M'
    case MF => 'M'
    case MH => 'M'
    case MS => 'M'
    case RB => 'R'
    case RP => 'R'
    case SC => 'S'
    case SE => 'S'
    case SI => 'S'
    case SM => 'S'
    case SR => 'S'
    case SS => 'S'
    case SQ => 'S'
    case SU => 'S'
    case SV => 'S'
    case SW => 'S'
    case TO => 'T'
    case TR => 'T'
    case TS => 'T'
    case TY => 'T'
    case UP => 'U'
    case WC => 'W'
    case WI => 'W'
    case WS => 'W'
    case WW => 'W'
    case ZF => 'Z'
    case ZR => 'Z'
    case ZY => 'Z'
  }

  function SecondLetter(p: PhenomCode): char
  {
    match p
    case AF => 'F'
    case AS => 'S'
    case BH => 'H'
    case BW => 'W'
    case BZ => 'Z'
    case CF => 'F'
    case DF => 'F'
    case DS => 'S'
    case DU => 'U'
    case EC => 'C'
    case EH => 'H'
    case EW => 'W'
    case FA => 'A'
    case FF => 'F'
    case FG => 'G'
    case FL => 'L'
    case FR => 'R'
    case FW => 'W'
    case FZ => 'Z'
    case GL => 'L'
    case HF => 'F'
    case HT => 'T'
    case HU => 'U'
    case HW => 'W'
    case HY => 'Y'
    case HZ => 'Z'
    case IS => 'S'
    case LE => 'E'
    case LO => 'O'
    case LS => 'S'
    case LW => 'W'
    case MA => 'A'
    case MF => 'F'
    case MH => 'H'
    case MS => 'S'
    case RB => 'B'
    case RP => 'P'
    case SC => 'C'
    case SE => 'E'
    case SI => 'I'
    case SM => 'M'
    case SR => 'R'
    case SS => 'S'
    case SQ => 'Q'
    case SU => 'U'
    case SV => 'V'
    case SW => 'W'
    case TO => 'O'
    case TR => 'R'
    case TS => 'S'
    case TY => 'Y'
    case UP => 'P'
    case WC => 'C'
    case WI => 'I'
    case WS => 'S'
    case WW => 'W'
    case ZF => 'F'
    case ZR => 'R'
    case ZY => 'Y'
  }

  /** A phenomenon's long name and the colour it is drawn in, if any. */
  datatype Phenomenon = Phenomenon(name: string, colour: Option<string>)

  /** The phenomenon table. */
  function PhenomEntry(p: PhenomCode): (e: Phenomenon)
    ensures p == FF ==> e.colour == Some("green")
    ensures p == MA ==> e.colour == Some("orange")
    ensures p == SV ==> e.colour == Some("gold")
    ensures p == TO ==> e.colour == Some("red")
    ensures e.colour.Some? <==> p in {FF, MA, SV, TO}
  {
    Phenomenon(PhenomName(p), PhenomColour(p))
  }

  /** The display colour the table gives a phenomenon, for the four that have one. */
  function PhenomColour(p: PhenomCode): Option<string>
  {
    match p
    case FF => Some("green")
    case MA => Some("orange")
    case SV => Some("gold")
    case TO => Some("red")
    case _ => None
  }

  /** The phenomenon's name as the table spells it. */
  function PhenomName(p: PhenomCode): string
  {
    match p
    case AF => "Ashfall (land)"
    case AS => "Air Stagnation"
    case BH => "Beach Hazard"
    case BW => "Brisk Wind"
    case BZ => "Blizzard"
    case CF => "Coastal Flood"
    case DF => "Debris Flow"
    case DS => "Dust Storm"
    case DU => "Blowing Dust"
    case EC => "Extreme Cold"
    case EH => "Excessive Heat"
    case EW => "Extreme Wind"
    case FA => "Areal Flood"
    case FF => "Flash Flood"
    case FG => "Dense Fog (land)"
    case FL => "Flood"
    case FR => "Frost"
    case FW => "Fire Weather"
    case FZ => "Freeze"
    case GL => "Gale"
    case HF => "Hurricane Force Wind"
    case HT => "Heat"
    case HU => "Hurricane"
    case HW => "High Wind"
    case HY => "Hydrologic"
    case HZ => "Hard Freeze"
    case IS => "Ice Storm"
    case LE => "Lake Effect Snow"
    case LO => "Low Water"
    case LS => "Lakeshore Flood"
    case LW => "Lake Wind"
    case MA => "Marine"
    case MF => "Dense Fog (marine)"
    case MH => "Ashfall (marine)"
    case MS => "Dense Smoke (marine)"
    case RB => "Small Craft for Rough Bar"
    case RP => "Rip Current Risk"
    case SC => "Small Craft"
    case SE => "Hazardous Seas"
    case SI => "Small Craft for Winds"
    case SM => "Dense Smoke (land)"
    case SR => "Storm"
    case SS => "Storm Surge"
    case SQ => "Snow Squall"
    case SU => "High Surf"
    case SV => "Severe Thunderstorm"
    case SW => "Small Craft for Hazardous Seas"
    case TO => "Tornado"
    case TR => "Tropical Storm"
    case TS => "Tsunami"
    case TY => "Typhoon"
    case UP => "Heavy Freezing Spray"
    case WC => "Wind Chill"
    case WI => "Wind"
    case WS => "Winter Storm"
    case WW => "Winter Weather"
    case ZF => "Freezing Fog"
    case ZR => "Freezing Rain"
    case ZY => "Freezing Spray"
  }


  /** The phenomenon a two-character text names, if any. */
  function ParsePhenom(s: string): (p: Option<PhenomCode>)
    ensures p.Some? ==> s == PhenomText(p.value)
  {
    if |s| != 2 then None
    else
      var p := PhenomOf(s[0], s[1]);
      if p.Some? && PhenomText(p.value) == s then p else None
  }

  /** The phenomenon whose code is the two characters `a` and `b`, if any. */
  function PhenomOf(a: char, b: char): Option<PhenomCode>
  {
    match a
    case 'A' => PhenomA(b)
    case 'B' => PhenomB(b)
    case 'C' => PhenomC(b)
    case 'D' => PhenomD(b)
    case 'E' => PhenomE(b)
    case 'F' => PhenomF(b)
    case 'G' => PhenomG(b)
    case 'H' => PhenomH(b)
    case 'I' => PhenomI(b)
    case 'L' => PhenomL(b)
    case 'M' => PhenomM(b)
    case 'R' => PhenomR(b)
    case 'S' => PhenomS(b)
    case 'T' => PhenomT(b)
    case 'U' => PhenomU(b)
    case 'W' => PhenomW(b)
    case 'Z' => PhenomZ(b)
    case _ => None
  }

  function PhenomA(b: char): (p: Option<PhenomCode>)
  {
    match b
    case 'F' => Some(AF)
    case 'S' => Some(AS)
    case _ => None
  }

  function PhenomB(b: char): (p: Option<PhenomCode>)
  {
    match b
    case 'H' => Some(BH)
    case 'W' => Some(BW)
    case 'Z' => Some(BZ)
    case _ => None
  }

  function PhenomC(b: char): (p: Option<PhenomCode>)
  {
    match b
    case 'F' => Some(CF)
    case _ => None
  }

  function PhenomD(b: char): (p: Option<PhenomCode>)
  {
    match b
    case 'F' => Some(DF)
    case 'S' => Some(DS)
    case 'U' => Some(DU)
    case _ => None
  }

  function PhenomE(b: char): (p: Option<PhenomCode>)
  {
    match b
    case 'C' => Some(EC)
    case 'H' => Some(EH)
    case 'W' => Some(EW)
    case _ => None
  }

  function PhenomF(b: char): (p: Option<PhenomCode>)
  {
    match b
    case 'A' => Some(FA)
    case 'F' => Some(FF)
    case 'G' => Some(FG)
    case 'L' => Some(FL)
    case 'R' => Some(FR)
    case 'W' => Some(FW)
    case 'Z' => Some(FZ)
    case _ => None
  }

  function PhenomG(b: char): (p: Option<PhenomCode>)
  {
    match b
    case 'L' => Some(GL)
    case _ => None
  }

  function PhenomH(b: char): (p: Option<PhenomCode>)
  {
    match b
    case 'F' => Some(HF)
    case 'T' => Some(HT)
    case 'U' => Some(HU)
    case 'W' => Some(HW)
    case 'Y' => Some(HY)
    case 'Z' => Some(HZ)
    case _ => None
  }

  function PhenomI(b: char): (p: Option<PhenomCode>)
  {
    match b
    case 'S' => Some(IS)
    case _ => None
  }

  function PhenomL(b: char): (p: Option<PhenomCode>)
  {
    match b
    case 'E' => Some(LE)
    case 'O' => Some(LO)
    case 'S' => Some(LS)
    case 'W' => Some(LW)
    case _ => None
  }

  function PhenomM(b: char): (p: Option<PhenomCode>)
  {
    match b
    case 'A' => Some(MA)
    case 'F' => Some(MF)
    case 'H' => Some(MH)
    case 'S' => Some(MS)
    case _ => None
  }

  function PhenomR(b: char): (p: Option<PhenomCode>)
  {
    match b
    case 'B' => Some(RB)
    case 'P' => Some(RP)
    case _ => None
  }

  function PhenomS(b: char): (p: Option<PhenomCode>)
  {
    match b
    case 'C' => Some(SC)
    case 'E' => Some(SE)
    case 'I' => Some(SI)
    case 'M' => Some(SM)
    case 'R' => Some(SR)
    case 'S' => Some(SS)
    case 'Q' => Some(SQ)
    case 'U' => Some(SU)
    case 'V' => Some(SV)
    case 'W' => Some(SW)
    case _ => None
  }

  function PhenomT(b: char): (p: Option<PhenomCode>)
  {
    match b
    case 'O' => Some(TO)
    case 'R' => Some(TR)
    case 'S' => Some(TS)
    case 'Y' => Some(TY)
    case _ => None
  }

  function PhenomU(b: char): (p: Option<PhenomCode>)
  {
    match b
    case 'P' => Some(UP)
    case _ => None
  }

  function PhenomW(b: char): (p: Option<PhenomCode>)
  {
    match b
    case 'C' => Some(WC)
    case 'I' => Some(WI)
    case 'S' => Some(WS)
    case 'W' => Some(WW)
    case _ => None
  }

  function PhenomZ(b: char): (p: Option<PhenomCode>)
  {
    match b
    case 'F' => Some(ZF)
    case 'R' => Some(ZR)
    case 'Y' => Some(ZY)
    case _ => None
  }

  /** Decoding the text of a code gives the code back. */
  lemma ParsePhenomText(p: PhenomCode)
    ensures ParsePhenom(PhenomText(p)) == Some(p)
  {
    match p
    case AF | AS | BH | BW | BZ | CF | DF | DS | DU | EC | EH | EW => ParsePhenomTextAToE(p);
    case FA | FF | FG | FL | FR | FW | FZ | GL | HF | HT | HU | HW | HY | HZ => ParsePhenomTextFToH(p);
    case IS | LE | LO | LS | LW | MA | MF | MH | MS | RB | RP => ParsePhenomTextIToR(p);
    case SC | SE | SI | SM | SR | SS | SQ | SU | SV | SW => ParsePhenomTextS(p);
    case TO | TR | TS | TY | UP | WC | WI | WS | WW | ZF | ZR | ZY => ParsePhenomTextTToZ(p);
  }

  lemma ParsePhenomTextAToE(p: PhenomCode)
    requires p in {AF, AS, BH, BW, BZ, CF, DF, DS, DU, EC, EH, EW}
    ensures ParsePhenom(PhenomText(p)) == Some(p)
  {
    match p
    case AF =>
    case AS =>
    case BH =>
    case BW =>
    case BZ =>
    case CF =>
    case DF =>
    case DS =>
    case DU =>
    case EC =>
    case EH =>
    case EW =>
    case _ => assert false;
  }

  lemma ParsePhenomTextFToH(p: PhenomCode)
    requires p in {FA, FF, FG, FL, FR, FW, FZ, GL, HF, HT, HU, HW, HY, HZ}
    ensures ParsePhenom(PhenomText(p)) == Some(p)
  {
    match p
    case FA =>
    case FF =>
    case FG =>
    case FL =>
    case FR =>
    case FW =>
    case FZ =>
    case GL =>
    case HF =>
    case HT =>
    case HU =>
    case HW =>
    case HY =>
    case HZ =>
    case _ => assert false;
  }

  lemma ParsePhenomTextIToR(p: PhenomCode)
    requires p in {IS, LE, LO, LS, LW, MA, MF, MH, MS, RB, RP}
    ensures ParsePhenom(PhenomText(p)) == Some(p)
  {
    match p
    case IS =>
    case LE =>
    case LO =>
    case LS =>
    case LW =>
    case MA =>
    case MF =>
    case MH =>
    case MS =>
    case RB =>
    case RP =>
    case _ => assert false;
  }

  lemma ParsePhenomTextS(p: PhenomCode)
    requires p in {SC, SE, SI, SM, SR, SS, SQ, SU, SV, SW}
    ensures ParsePhenom(PhenomText(p)) == Some(p)
  {
    match p
    case SC =>
    case SE =>
    case SI =>
    case SM =>
    case SR =>
    case SS =>
    case SQ =>
    case SU =>
    case SV =>
    case SW =>
    case _ => assert false;
  }

  lemma ParsePhenomTextTToZ(p: PhenomCode)
    requires p in {TO, TR, TS, TY, UP, WC, WI, WS, WW, ZF, ZR, ZY}
    ensures ParsePhenom(PhenomText(p)) == Some(p)
  {
    match p
    case TO =>
    case TR =>
    case TS =>
    case TY =>
    case UP =>
    case WC =>
    case WI =>
    case WS =>
    case WW =>
    case ZF =>
    case ZR =>
    case ZY =>
    case _ => assert false;
  }



  /** A text decodes to nothing exactly when it is no code's text. */
  lemma ParsePhenomNone(s: string)
    ensures ParsePhenom(s).None? <==> forall q :: PhenomText(q) != s
  {
    forall q | PhenomText(q) == s
      ensures ParsePhenom(s) == Some(q)
    {
      ParsePhenomText(q);
    }
  }

  // ---------------------------------------------------------------------------
  // Significance

  /** The significance codes. */
  datatype Significance = Warning | Watch | Advisory | Statement | Forecast | Outlook | Synopsis

  /** The one-character text of a significance code. */
  function SigText(g: Significance): (s: string)
    ensures |s| == 1
  {
    match g
    case Warning => "W"
    case Watch => "A"
    case Advisory => "Y"
    case Statement => "S"
    case Forecast => "F"
    case Outlook => "O"
    case Synopsis => "N"
  }

  /** The significance table. */
  function SigName(g: Significance): string
  {
    match g
    case Warning => "Warning"
    case Watch => "Watch"
    case Advisory => "Advisory"
    case Statement => "Statement"
    case Forecast => "Forecast"
    case Outlook => "Outlook"
    case Synopsis => "Synopsis"
  }

  /** The significance a one-character text names, if any. */
  function ParseSig(s: string): (g: Option<Significance>)
  {
    if |s| != 1 then None
    else match s[0]
      case 'W' => Some(Warning)
      case 'A' => Some(Watch)
      case 'Y' => Some(Advisory)
      case 'S' => Some(Statement)
      case 'F' => Some(Forecast)
      case 'O' => Some(Outlook)
      case 'N' => Some(Synopsis)
      case _ => None
  }

  /** Decoding is the inverse of the code's text, and exactly the seven texts
      decode. */
  lemma ParseSigText(g: Significance, s: string)
    ensures ParseSig(SigText(g)) == Some(g)
    ensures ParseSig(s).Some? ==> SigText(ParseSig(s).value) == s
    ensures ParseSig(s).Some? <==> s in {"W", "A", "Y", "S", "F", "O", "N"}
  {
    if |s| == 1 {
      assert s == [s[0]];
    }
  }

  // ---------------------------------------------------------------------------
  // Geometry type

  /** Storm-based (polygon) or county/zone based events. */
  datatype GeometryType = PolygonBased | CountyBased

  function GTypeText(t: GeometryType): string
  {
    match t
    case PolygonBased => "P"
    case CountyBased => "C"
  }

  /** The geometry-type table. */
  function GTypeName(t: GeometryType): string
  {
    match t
    case PolygonBased => "Polygon"
    case CountyBased => "County/zone/parish"
  }

  function ParseGType(s: string): (t: Option<GeometryType>)
  {
    if s == "P" then Some(PolygonBased) else if s == "C" then Some(CountyBased) else None
  }

  /** Exactly `P` and `C` decode, to polygon and county/zone/parish. */
  lemma ParseGTypeText(t: GeometryType, s: string)
    ensures ParseGType(GTypeText(t)) == Some(t)
    ensures ParseGType(s).Some? <==> s in {"P", "C"}
    ensures ParseGType("P") == Some(PolygonBased) && GTypeName(PolygonBased) == "Polygon"
    ensures ParseGType("C") == Some(CountyBased) && GTypeName(CountyBased) == "County/zone/parish"
  {
  }

  // ---------------------------------------------------------------------------
  // Lookup

  /** The tables, as record properties name them. */
  datatype Table = PhenomTable | SigTable | GTypeTable

  /** The table a property name refers to, if any. */
  function TableNamed(name: string): (t: Option<Table>)
    ensures t == Some(PhenomTable) <==> name == "PHENOM"
    ensures t == Some(SigTable) <==> name == "SIG"
    ensures t == Some(GTypeTable) <==> name == "GTYPE"
  {
    if name == "PHENOM" then Some(PhenomTable)
    else if name == "SIG" then Some(SigTable)
    else if name == "GTYPE" then Some(GTypeTable)
    else None
  }

  /** An entry of one of the tables. */
  datatype Entry = PhenomenonEntry(phenomenon: Phenomenon) | Label(text: string)

  /** `table[code]`, or `KeyError` for a code the table does not have. */
  function Lookup(t: Table, code: string): (r: Result<Entry>)
    ensures r.Err? ==> r.error == KeyError
    ensures t == PhenomTable ==> (r.Ok? <==> ParsePhenom(code).Some?)
    ensures t == SigTable ==> (r.Ok? <==> ParseSig(code).Some?)
    ensures t == GTypeTable ==> (r.Ok? <==> ParseGType(code).Some?)
  {
    match t
    case PhenomTable =>
      (match ParsePhenom(code)
       case None => Err(KeyError)
       case Some(p) => Ok(PhenomenonEntry(PhenomEntry(p))))
    case SigTable =>
      (match ParseSig(code)
       case None => Err(KeyError)
       case Some(g) => Ok(Label(SigName(g))))
    case GTypeTable =>
      (match ParseGType(code)
       case None => Err(KeyError)
       case Some(k) => Ok(Label(GTypeName(k))))
  }

  /** Looking up a code's own text gives that code's entry. */
  lemma LookupText(p: PhenomCode, g: Significance, k: GeometryType)
    ensures Lookup(PhenomTable, PhenomText(p)) == Ok(PhenomenonEntry(PhenomEntry(p)))
    ensures Lookup(SigTable, SigText(g)) == Ok(Label(SigName(g)))
    ensures Lookup(GTypeTable, GTypeText(k)) == Ok(Label(GTypeName(k)))
  {
    ParsePhenomText(p);
    ParseSigText(g, "");
    ParseGTypeText(k, "");
  }

  /** The tornado entry, as a reader of the table would look it up. */
  lemma TornadoIsRed()
    ensures Lookup(PhenomTable, "TO") == Ok(PhenomenonEntry(Phenomenon("Tornado", Some("red"))))
  {
    ParsePhenomText(TO);
  }
}
