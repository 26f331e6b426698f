/**
 * Names of the scratch directory and of the files a publication run creates in it
 * (create_directory, file_path, create_csv and create_archive in
 * app/batid/services/data_gouv_publication.py).
 */
module Naming {

  const DirectoryPrefix := "datagouvfr_publication_"

  /**
   * The scratch directory of one area; `stamp` stands for the formatted clock reading
   * ("%Y-%m-%d_%H-%M-%S", always 19 characters).
   */
  function DirectoryName(area: string, stamp: string): (d: string)
    ensures |d| == |DirectoryPrefix| + |area| + 1 + |stamp|
    ensures d[..|DirectoryPrefix|] == DirectoryPrefix
    ensures d[|DirectoryPrefix|..|DirectoryPrefix| + |area| + 1] == area + "_"
    ensures d[|d| - |stamp|..] == stamp
  {
    DirectoryPrefix + area + "_" + stamp
  }

  /** Two runs whose clock readings have the same width share a directory only if they have the same area and stamp. */
  lemma DirectoryNamesDistinct(a1: string, s1: string, a2: string, s2: string)
    requires |s1| == |s2|
    requires DirectoryName(a1, s1) == DirectoryName(a2, s2)
    ensures a1 == a2 && s1 == s2
  {
    var n := DirectoryName(a1, s1);
    var p := |DirectoryPrefix|;
    assert |a1| == |a2|;
    assert n[p..p + |a1|] == a1;
    assert DirectoryName(a2, s2)[p..p + |a2|] == a2;
    assert n[p + |a1| + 1..] == s1;
    assert DirectoryName(a2, s2)[p + |a2| + 1..] == s2;
  }

  /** The path of the area's export inside `directory`, WITHOUT any extension. */
  function FilePath(directory: string, area: string): (p: string)
    ensures |p| == |directory| + |"/RNB_"| + |area|
    ensures p[..|directory| + |"/RNB_"|] == directory + "/RNB_"
    ensures p[|directory| + |"/RNB_"|..] == area
  {
    directory + "/RNB_" + area
  }

  /** The name of the single entry stored inside the zip archive. */
  function ArchiveEntryName(area: string): (name: string)
    ensures |name| == |"RNB_"| + |area| + |".csv"|
    ensures name[..|"RNB_"|] == "RNB_" && name[|name| - |".csv"|..] == ".csv"
    ensures name[|"RNB_"|..|name| - |".csv"|] == area
  {
    "RNB_" + area + ".csv"
  }

  /** The CSV export: the archive entry's name, directly inside the directory. */
  function CsvPath(directory: string, area: string): (p: string)
    ensures p == directory + "/" + ArchiveEntryName(area)
  {
    FilePath(directory, area) + ".csv"
  }

  /** The zip archive sits beside the CSV, with ".zip" appended to the CSV's name. */
  function ArchivePath(directory: string, area: string): (p: string)
    ensures p == CsvPath(directory, area) + ".zip"
    ensures p == directory + "/" + ArchiveEntryName(area) + ".zip"
  {
    FilePath(directory, area) + ".csv.zip"
  }

  /** Distinct areas get distinct archive paths in the same directory. */
  lemma {:induction false} ArchivePathsDistinct(directory: string, a1: string, a2: string)
    requires a1 != a2
    ensures ArchivePath(directory, a1) != ArchivePath(directory, a2)
  {
    if |a1| == |a2| {
      var k :| 0 <= k < |a1| && a1[k] != a2[k];
      var i := |directory| + |"/RNB_"| + k;
      assert ArchivePath(directory, a1)[i] == FilePath(directory, a1)[i] == a1[k];
      assert ArchivePath(directory, a2)[i] == FilePath(directory, a2)[i] == a2[k];
    }
  }
}
