/**
 * The static NetCDF helper: the two temperature conversions and the argument
 * checks that `Load` performs before it touches the file system.
 */
module NetCdf {
  import opened Wrappers

  /** The offset between the Kelvin and the Celsius scale. */
  const KelvinOffset: real := 273.15

  /** Celsius to Kelvin: the Kelvin value is above the Celsius one, by the fixed offset. */
  function CelsiusToKelvin(celsius: real): (kelvin: real)
    ensures celsius < kelvin
  {
    celsius + KelvinOffset
  }

  /** Kelvin to Celsius; converting the result back gives the input. */
  function KelvinToCelsius(kelvin: real): (celsius: real)
    ensures CelsiusToKelvin(celsius) == kelvin
    ensures celsius < kelvin
  {
    kelvin - KelvinOffset
  }

  /** The conversions are mutual inverses in the other direction too. */
  lemma CelsiusRoundTrip(celsius: real)
    ensures KelvinToCelsius(CelsiusToKelvin(celsius)) == celsius
  {
  }

  /** Kelvin to Celsius is strictly increasing, so it preserves order both ways. */
  lemma KelvinToCelsiusStrictlyMonotone(a: real, b: real)
    ensures a < b <==> KelvinToCelsius(a) < KelvinToCelsius(b)
    ensures a == b <==> KelvinToCelsius(a) == KelvinToCelsius(b)
  {
  }

  /** The exceptions `Load` raises before reading any data. */
  datatype LoadError =
    | ArgumentError      // null or empty path
    | FileNotFound       // the path names no existing file

  /**
   * `Load`: a null (None) or empty path is rejected before the file system is
   * consulted; an existing file is handed to the data reader. File existence
   * and the reader itself are outside the model and come in as functions.
   */
  function Load<T>(path: Option<string>, fileExists: string -> bool, loadData: string -> T): (r: Result<T, LoadError>)
    ensures (path.None? || path.value == []) <==> (r.Failure? && r.error == ArgumentError)
    ensures (r.Failure? && r.error == FileNotFound) <==> (path.Some? && path.value != [] && !fileExists(path.value))
    ensures r.Success? ==> path.Some? && fileExists(path.value) && r.value == loadData(path.value)
  {
    if path.None? || path.value == [] then Failure(ArgumentError)
    else if !fileExists(path.value) then Failure(FileNotFound)
    else Success(loadData(path.value))
  }

  /** The empty-path guard comes first: whatever the file system says, the error is the same. */
  lemma LoadChecksPathBeforeFileSystem<T>(path: Option<string>, e1: string -> bool, e2: string -> bool, d: string -> T)
    requires path.None? || path.value == []
    ensures Load(path, e1, d) == Load(path, e2, d)
  {
  }
}
