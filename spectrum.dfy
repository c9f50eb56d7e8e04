/**
 * The record a decode fills: a spectrum description and its centroid peaks.
 * Numbers read from the file (m/z, intensity, retention time) are kept as the
 * literal text that `f64`/`f32` parsing accepted; the charge is an integer.
 */
module Spectra {
  import opened Wrappers

  datatype SignalContinuity = UnknownContinuity | Centroid | Profile

  datatype ScanPolarity = UnknownPolarity | Positive | Negative

  /** The selected ion of a precursor (from a `PEPMASS` header). */
  datatype SelectedIon = SelectedIon(mz: string, intensity: string, charge: Option<int>)

  /** One acquisition event; only its start time is set by the MGF reader. */
  datatype ScanEvent = ScanEvent(startTime: string)

  datatype Description = Description(
    id: string,
    msLevel: nat,
    signalContinuity: SignalContinuity,
    polarity: ScanPolarity,
    precursor: Option<SelectedIon>,
    acquisition: seq<ScanEvent>,
    annotations: map<string, string>)

  datatype Peak = Peak(mz: string, intensity: string)

  /**
   * The peak container is a sorted set whose order is its own business, so the
   * peaks are a multiset: pushing a peak adds one occurrence of it.
   */
  datatype Spectrum = Spectrum(description: Description, peaks: multiset<Peak>)

  /** `new_scan`: an empty record, MS level 2, centroided, polarity unknown. */
  function NewScan(): Spectrum
  {
    Spectrum(Description("", 2, Centroid, UnknownPolarity, None, [], map[]), multiset{})
  }

  /** `peaks.push(peak)`. */
  function AddPeak(s: Spectrum, p: Peak): (r: Spectrum)
    ensures r.description == s.description
    ensures r.peaks == s.peaks + multiset{p}
  {
    s.(peaks := s.peaks + multiset{p})
  }

  /**
   * Sets the start time of the first acquisition event, adding one when the
   * description has none (`first_scan_mut` adds the event automatically).
   */
  function SetStartTime(d: Description, t: string): (r: Description)
    ensures |r.acquisition| == if |d.acquisition| == 0 then 1 else |d.acquisition|
    ensures r.acquisition[0].startTime == t
    ensures r.acquisition[1..] == if |d.acquisition| == 0 then [] else d.acquisition[1..]
    ensures r.(acquisition := d.acquisition) == d
  {
    if |d.acquisition| == 0 then d.(acquisition := [ScanEvent(t)])
    else d.(acquisition := d.acquisition[0 := d.acquisition[0].(startTime := t)])
  }
}
