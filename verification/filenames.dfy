/** The output and input file names are coerced to carry the `.csv` extension. */
module FileNames {

  const CsvSuffix: string := ".csv"

  /** `s.endswith(suffix)`, case-sensitive as in Python. */
  predicate EndsWith(s: string, suffix: string) {
    |suffix| <= |s| && s[|s| - |suffix|..] == suffix
  }

  /**
   The suffix rule of both scripts. The result always ends in `.csv`. A name
   that already ends in `.csv` is kept as it is; any other name gets the whole
   suffix appended, even when it ends in a part of it.
   */
  function WithCsvSuffix(name: string): (r: string)
    ensures EndsWith(r, CsvSuffix)
    ensures EndsWith(name, CsvSuffix) ==> r == name
    ensures !EndsWith(name, CsvSuffix) ==> r == name + CsvSuffix
  {
    if EndsWith(name, CsvSuffix) then name
    else
      var r := name + CsvSuffix;
      assert r[|r| - |CsvSuffix|..] == CsvSuffix;
      r
  }

  /** Coercing an already coerced name changes nothing. */
  lemma WithCsvSuffixIdempotent(name: string)
    ensures WithCsvSuffix(WithCsvSuffix(name)) == WithCsvSuffix(name)
  {
  }
}
