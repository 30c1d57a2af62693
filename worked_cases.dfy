/** Worked cases on concrete board text: the destination filter on Newark
    destinations, the label scan on a typical entry, and the single-pass
    behaviour of label removal. */
module WorkedCases {
  import opened Wrappers
  import Text
  import Departures

  /** One leading blank before a non-blank is all StripLeft removes. */
  lemma StripOneBlank(s: string)
    requires |s| >= 2 && Text.IsSpace(s[0]) && !Text.IsSpace(s[1])
    ensures Text.StripLeft(s) == s[1..]
  {
  }

  lemma StripLeftTrain()
    ensures Text.StripLeft(" Train 7") == "Train 7"
  {
    StripOneBlank(" Train 7");
    assert " Train 7"[1..] == "Train 7";
  }

  lemma StripLeftNumber()
    ensures Text.StripLeft(" 7") == "7"
  {
    assert " 7"[1..] == "7";
  }

  lemma StripCases()
    ensures Text.Strip(" Train 7") == "Train 7"
    ensures Text.Strip(" 7") == "7"
  {
    StripLeftTrain();
    StripLeftNumber();
  }

  /** Removal makes a single pass: removing "Train" from "TrTrainain" leaves
      "Train". */
  lemma RemoveAllCases()
    ensures Text.RemoveAll("Train 7", "Train") == " 7"
    ensures Text.RemoveAll("TrTrainain", "Train") == "Train"
  {
    assert "Train 7"[..5] == "Train";
    assert "Train 7"[5..] == " 7";
    assert "TrTrainain"[..5][2] == 'T';
    assert "TrTrainain"[1..] == "rTrainain";
    assert Text.RemoveAll("TrTrainain", "Train") == "T" + Text.RemoveAll("rTrainain", "Train");
    assert "rTrainain"[..5][0] == 'r';
    assert "rTrainain"[1..] == "Trainain";
    assert Text.RemoveAll("rTrainain", "Train") == "r" + Text.RemoveAll("Trainain", "Train");
    assert "Trainain"[..5] == "Train";
    assert "Trainain"[5..] == "ain";
    assert Text.RemoveAll("Trainain", "Train") == Text.RemoveAll("ain", "Train");
    assert Text.RemoveAll("ain", "Train") == "ain";
  }

  lemma FirstTrainText()
    ensures Departures.FirstContaining(["NEC", " Train 7", "Track 2"], Departures.TrainLabel) == Some(" Train 7")
  {
    assert !Text.Contains("NEC", Departures.TrainLabel);
    assert Text.OccursAt(" Train 7", Departures.TrainLabel, 1);
  }

  /** The label scan on a typical entry: the first text node with the label
      is used, and the blanks around the number are stripped. */
  lemma LabelScanCase()
    ensures Departures.LabelValue(["NEC", " Train 7", "Track 2"], Departures.TrainLabel) == "7"
  {
    FirstTrainText();
    StripCases();
    RemoveAllCases();
  }

  lemma LowerCases()
    ensures Text.Lower("Newark") == "newark" && Text.Lower("newark") == "newark"
  {
  }

  /** Lower-casing commutes with taking a prefix. */
  lemma LowerPrefix(s: string, k: nat)
    requires k <= |s|
    ensures Text.Lower(s)[..k] == Text.Lower(s[..k])
  {
  }

  /** A destination that starts with "Newark", in any case, contains
      "newark" once lower-cased. */
  lemma NewarkInDestination(d: string)
    requires |d| >= 6 && Text.Lower(d[..6]) == "newark"
    ensures Text.Contains(Text.Lower(d), "newark")
  {
    LowerPrefix(d, 6);
    assert Text.OccursAt(Text.Lower(d), "newark", 0);
  }

  lemma NewarkNotInHoboken()
    ensures !Text.Contains(Text.Lower("Hoboken"), "newark")
  {
    var d := Text.Lower("Hoboken");
    assert d[0] == 'h' && d[1] == 'o';
    assert d[0..6][0] == 'h';
    assert d[1..7][0] == 'o';
  }

  /** The filter on Newark destinations: "Newark", in either case, keeps
      "Newark Penn Station" and drops "Hoboken". */
  lemma NewarkFilterCase()
    ensures Departures.KeepDestination(Some("Newark"), "Newark Penn Station")
    ensures Departures.KeepDestination(Some("newark"), "Newark Penn Station")
    ensures !Departures.KeepDestination(Some("Newark"), "Hoboken")
    ensures !Departures.KeepDestination(Some("newark"), "Hoboken")
  {
    LowerCases();
    assert "Newark Penn Station"[..6] == "Newark";
    NewarkInDestination("Newark Penn Station");
    NewarkNotInHoboken();
  }
}
