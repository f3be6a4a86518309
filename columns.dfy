/**
 * The generation sources of the forecast table, their column names, the
 * vendor facility ids they come from, and the column type shared by the
 * forecast frames.
 */
module Columns {
  import opened Numeric

  datatype Source =
    | MeteoRoi | MeteoNi | MeteoTb | MeteoCk | MeteoLd | MeteoCd
    | NaiveNonwind | SelfForecast | MeteoDt | MeteoMur | MeteoS1 | MeteoS2

  /** The name of a source's column without its unit. */
  function Stem(s: Source): string
  {
    match s
    case MeteoRoi => "Meteo ROI"
    case MeteoNi => "Meteo NI"
    case MeteoTb => "Meteo TB"
    case MeteoCk => "Meteo CK"
    case MeteoLd => "Meteo LD"
    case MeteoCd => "Meteo CD"
    case NaiveNonwind => "Naïve Nonwind"
    case SelfForecast => "Self-forecast"
    case MeteoDt => "Meteo DT"
    case MeteoMur => "Meteo MUR"
    case MeteoS1 => "Meteo S1"
    case MeteoS2 => "Meteo S2"
  }

  /** The header of a source's column in the forecast table. */
  function ColumnName(s: Source): string
  {
    Stem(s) + " (MW)"
  }

  /** The output column order of the normalised forecast, after its time column. */
  const OutputOrder: seq<Source> :=
    [MeteoRoi, MeteoNi, MeteoTb, MeteoCk, MeteoLd, MeteoCd,
     NaiveNonwind, SelfForecast, MeteoDt, MeteoMur, MeteoS1, MeteoS2]

  /** The columns the downloaded frame is created with: all but the two the code adds itself. */
  predicate FromVendor(s: Source) {
    !s.NaiveNonwind? && !s.SelfForecast?
  }

  /** Vendor facility id to forecast column, in the order of the source's dict. */
  const FacilityMapping: seq<(string, Source)> := [
    ("Vayu_Cluster1", MeteoRoi),
    ("Vayu_Cluster2", MeteoNi),
    ("Vayu_402050", MeteoTb),
    ("Vayu_GU_402280", MeteoCk),
    ("Flogas-solar_0587", MeteoLd),
    ("Vayu_0275", MeteoCd),
    ("Flogas-solar_0378__", MeteoDt),
    ("Vayu_GEN_504260", MeteoMur),
    ("Flogas-solar_0670", MeteoS1),
    ("Flogas-solar_0684", MeteoS2)
  ]

  /**
   * A column of a frame: a value per row, or Blank for a column that exists but
   * holds only missing values (NaN) because no facility filled it.
   */
  datatype Column = Values(cells: seq<real>) | Blank

  /** A frame: one time per row and a column per source. */
  datatype Frame = Frame(times: seq<int>, columns: map<Source, Column>)

  predicate WellFormed(f: Frame) {
    forall s :: s in f.columns && f.columns[s].Values? ==> |f.columns[s].cells| == |f.times|
  }

  function Constant(n: nat, v: real): (c: seq<real>)
    ensures |c| == n && forall k :: 0 <= k < n ==> c[k] == v
  {
    seq(n, k => v)
  }

  /** Each mapped facility fills a different column, and every vendor column has exactly one facility. */
  lemma FacilityMappingIsOneToOne()
    ensures forall i, j :: 0 <= i < j < |FacilityMapping| ==> FacilityMapping[i].1 != FacilityMapping[j].1
    ensures forall i :: 0 <= i < |FacilityMapping| ==> FromVendor(FacilityMapping[i].1)
    ensures forall s :: FromVendor(s) ==> exists i :: 0 <= i < |FacilityMapping| && FacilityMapping[i].1 == s
  {
    forall s | FromVendor(s)
      ensures exists i :: 0 <= i < |FacilityMapping| && FacilityMapping[i].1 == s
    {
      match s
      case MeteoRoi => assert FacilityMapping[0].1 == s;
      case MeteoNi => assert FacilityMapping[1].1 == s;
      case MeteoTb => assert FacilityMapping[2].1 == s;
      case MeteoCk => assert FacilityMapping[3].1 == s;
      case MeteoLd => assert FacilityMapping[4].1 == s;
      case MeteoCd => assert FacilityMapping[5].1 == s;
      case MeteoDt => assert FacilityMapping[6].1 == s;
      case MeteoMur => assert FacilityMapping[7].1 == s;
      case MeteoS1 => assert FacilityMapping[8].1 == s;
      case MeteoS2 => assert FacilityMapping[9].1 == s;
    }
  }

  /** The output column order lists every source. */
  lemma EverySourceInOutputOrder()
    ensures forall s: Source :: s in OutputOrder
  {
    forall s: Source
      ensures s in OutputOrder
    {
      match s
      case MeteoRoi => assert OutputOrder[0] == s;
      case MeteoNi => assert OutputOrder[1] == s;
      case MeteoTb => assert OutputOrder[2] == s;
      case MeteoCk => assert OutputOrder[3] == s;
      case MeteoLd => assert OutputOrder[4] == s;
      case MeteoCd => assert OutputOrder[5] == s;
      case NaiveNonwind => assert OutputOrder[6] == s;
      case SelfForecast => assert OutputOrder[7] == s;
      case MeteoDt => assert OutputOrder[8] == s;
      case MeteoMur => assert OutputOrder[9] == s;
      case MeteoS1 => assert OutputOrder[10] == s;
      case MeteoS2 => assert OutputOrder[11] == s;
    }
  }
}
