/**
 * What the inventory page and the temperature report page share when they
 * copy a report: its first line, and the rule that a report holding nothing
 * past that line is not copied (the page alerts instead).
 */
module Report {
  import opened Optional
  import opened Text

  /** `${branchData.name} 입니다.\n\n`: the first line and a blank line. */
  function Header(branchName: string): string {
    branchName + " 입니다.\n\n"
  }

  /**
   * None when the trimmed report is just the first line (the page alerts);
   * otherwise the trimmed report, which is what goes to the clipboard.
   */
  function CopyOutcome(branchName: string, report: string): Option<string> {
    if Trim(report) == branchName + " 입니다." then None else Some(Trim(report))
  }

  /** The first line of a branch whose name starts visibly trims to itself without the blank line. */
  lemma HeaderTrim(branchName: string)
    requires branchName != [] && !IsWhitespace(branchName[0])
    ensures Trim(Header(branchName)) == branchName + " 입니다."
    ensures !IsBlank(Header(branchName))
  {
    var h := branchName + " 입니다.";
    assert h[0] == branchName[0] && h[|h| - 1] == '.';
    TrimDropsTrailing(h, "\n\n");
    assert Header(branchName) == h + "\n\n";
    VisibleAt(Header(branchName), 0);
  }

  /**
   * A report that starts with the first line of a branch whose name starts
   * visibly is not copied exactly when nothing but white space follows it.
   */
  lemma AlertsExactlyWhenEmpty(branchName: string, report: string)
    requires branchName != [] && !IsWhitespace(branchName[0])
    requires Header(branchName) <= report
    ensures CopyOutcome(branchName, report).None? <==> BlankAfter(report, |Header(branchName)|)
  {
    HeaderTrim(branchName);
    TrimOfExtension(Header(branchName), report);
  }
}
