/** The crowding summary of one departure entry (`parse_occupancy`). The
    occupancy block of an entry is either absent or a list of car sections,
    each a list of indicator dots; a dot is represented by the value of its
    `style` attribute (the empty string when it has none). */
module Occupancy {
  import opened Wrappers
  import Text

  /** The three reference colours; any other style counts as "no data". */
  const LightColour := "background-color: rgb(11, 102, 35)"
  const MediumColour := "background-color: rgb(255, 193, 7)"
  const HeavyColour := "background-color: rgb(220, 53, 69)"

  datatype Level = Light | Medium | Heavy | NoData

  /** The five counters of an entry's occupancy summary. */
  datatype Occupancy = Occupancy(totalSections: nat, light: nat, medium: nat, heavy: nat, noData: nat)

  const NoOccupancy := Occupancy(0, 0, 0, 0, 0)

  type Section = seq<string>

  /** The level of one dot. The colours are tried in the order light, medium,
      heavy, so a style mentioning several colours takes the first: light wins
      over medium and heavy, medium over heavy, and "no data" is exactly the
      absence of all three colours. */
  function Classify(style: string): (r: Level)
    ensures Text.Contains(style, LightColour) ==> r == Light
    ensures !Text.Contains(style, LightColour) && Text.Contains(style, MediumColour) ==> r == Medium
    ensures r == Heavy <==>
      !Text.Contains(style, LightColour) && !Text.Contains(style, MediumColour) && Text.Contains(style, HeavyColour)
    ensures r == NoData <==>
      !Text.Contains(style, LightColour) && !Text.Contains(style, MediumColour) && !Text.Contains(style, HeavyColour)
  {
    if Text.Contains(style, LightColour) then Light
    else if Text.Contains(style, MediumColour) then Medium
    else if Text.Contains(style, HeavyColour) then Heavy
    else NoData
  }

  /** The dots of all sections, section by section. */
  function Dots(sections: seq<Section>): seq<string>
  {
    if sections == [] then [] else Dots(sections[..|sections| - 1]) + sections[|sections| - 1]
  }

  /** How many of `dots` classify as `level`. */
  function CountLevel(dots: seq<string>, level: Level): (n: nat)
    ensures n <= |dots|
  {
    if dots == [] then 0
    else CountLevel(dots[..|dots| - 1], level) + (if Classify(dots[|dots| - 1]) == level then 1 else 0)
  }

  /** The counters for `totalSections` sections whose dots are `dots`. */
  function Tally(totalSections: nat, dots: seq<string>): Occupancy
  {
    Occupancy(totalSections, CountLevel(dots, Light), CountLevel(dots, Medium),
              CountLevel(dots, Heavy), CountLevel(dots, NoData))
  }

  /** The summary `parse_occupancy` returns: all zeros without an occupancy
      block; otherwise the number of sections and, per level, the number of
      dots (across all sections) of that level. */
  function Summary(block: Option<seq<Section>>): Occupancy
  {
    match block
    case None => NoOccupancy
    case Some(sections) => Tally(|sections|, Dots(sections))
  }

  /** Nested loops over sections and dots incrementing one counter per dot,
      as the source does. */
  method ParseOccupancy(block: Option<seq<Section>>) returns (info: Occupancy)
    ensures info == Summary(block)
    ensures block.None? ==> info == NoOccupancy
    ensures block.Some? ==> info.totalSections == |block.value|
  {
    if block.None? {
      return NoOccupancy;
    }
    var sections := block.value;
    info := Occupancy(|sections|, 0, 0, 0, 0);
    var i := 0;
    while i < |sections|
      invariant 0 <= i <= |sections|
      invariant info == Tally(|sections|, Dots(sections[..i]))
    {
      var section := sections[i];
      var j := 0;
      assert sections[..i + 1][..i] == sections[..i];
      assert Dots(sections[..i]) + section[..0] == Dots(sections[..i]);
      while j < |section|
        invariant 0 <= j <= |section|
        invariant info == Tally(|sections|, Dots(sections[..i]) + section[..j])
      {
        var dots := Dots(sections[..i]) + section[..j + 1];
        assert dots[..|dots| - 1] == Dots(sections[..i]) + section[..j];
        match Classify(section[j]) {
          case Light => info := info.(light := info.light + 1);
          case Medium => info := info.(medium := info.medium + 1);
          case Heavy => info := info.(heavy := info.heavy + 1);
          case NoData => info := info.(noData := info.noData + 1);
        }
        j := j + 1;
      }
      assert section[..j] == section;
      i := i + 1;
    }
    assert sections[..i] == sections;
  }

  /** Every dot is counted once, under exactly one level. */
  lemma {:induction false} LevelsPartitionDots(dots: seq<string>)
    ensures CountLevel(dots, Light) + CountLevel(dots, Medium) + CountLevel(dots, Heavy)
            + CountLevel(dots, NoData) == |dots|
  {
    if dots != [] {
      LevelsPartitionDots(dots[..|dots| - 1]);
    }
  }

  /** The four level counters add up to the number of dots in the block. */
  lemma CountersSumToDots(block: Option<seq<Section>>)
    ensures var s := Summary(block);
      s.light + s.medium + s.heavy + s.noData == if block.None? then 0 else |Dots(block.value)|
  {
    if block.Some? {
      LevelsPartitionDots(Dots(block.value));
    }
  }

  lemma {:induction false} DotsLength(sections: seq<Section>)
    requires forall k :: 0 <= k < |sections| ==> |sections[k]| == 1
    ensures |Dots(sections)| == |sections|
  {
    if sections != [] {
      DotsLength(sections[..|sections| - 1]);
    }
  }

  /** The level counters equal the section count when every section has
      exactly one dot. */
  lemma CountersMatchSectionsForSingleDots(sections: seq<Section>)
    requires forall k :: 0 <= k < |sections| ==> |sections[k]| == 1
    ensures var s := Summary(Some(sections));
      s.light + s.medium + s.heavy + s.noData == s.totalSections
  {
    DotsLength(sections);
    CountersSumToDots(Some(sections));
  }

  /** In general they do not: one section with two dots gives a section count
      of 1 and counters adding up to 2. */
  lemma CountersMayExceedSections()
    ensures var s := Summary(Some([[LightColour, HeavyColour]]));
      s.totalSections == 1 && s.light + s.medium + s.heavy + s.noData == 2
  {
    var sections: seq<Section> := [[LightColour, HeavyColour]];
    assert sections[..0] == [];
    CountersSumToDots(Some(sections));
  }
}
