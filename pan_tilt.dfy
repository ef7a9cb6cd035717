/**
 * The pan-tilt configuration of an IP camera: for each of the five
 * pan-tilt instructions, the command that begins it, the command that ends
 * it and the time between the two, all relative to the controller's URL.
 */
module PanTilt {

  datatype PanTiltInstruction = Center | Down | Left | Right | Up

  /** One instruction: begin command, end command, and the delay between them. */
  datatype InstructionConfig = InstructionConfig(begin: string, end: string, durationMillis: int)

  /** The default instruction configuration: no commands, no duration. */
  function DefaultInstructionConfig(): InstructionConfig {
    InstructionConfig("", "", 0)
  }

  datatype PanTiltConfig = PanTiltConfig(
    url: string,
    right: InstructionConfig,
    left: InstructionConfig,
    up: InstructionConfig,
    down: InstructionConfig,
    center: InstructionConfig)

  /** The default configuration: empty URL, default instructions. */
  function DefaultPanTiltConfig(): PanTiltConfig {
    var d := DefaultInstructionConfig();
    PanTiltConfig("", d, d, d, d, d)
  }

  /** findInstructionConfig: the configuration held for the instruction. */
  function FindInstructionConfig(c: PanTiltConfig, i: PanTiltInstruction): InstructionConfig {
    match i
    case Right => c.right
    case Left => c.left
    case Up => c.up
    case Down => c.down
    case Center => c.center
  }

  /** The configuration with the instruction's entry replaced. */
  function SetInstructionConfig(c: PanTiltConfig, i: PanTiltInstruction, ic: InstructionConfig): PanTiltConfig {
    match i
    case Right => c.(right := ic)
    case Left => c.(left := ic)
    case Up => c.(up := ic)
    case Down => c.(down := ic)
    case Center => c.(center := ic)
  }

  /**
   * Each instruction has its own entry: setting one instruction's entry
   * changes what is found for that instruction and for no other.
   */
  lemma InstructionsHaveOwnConfigs(c: PanTiltConfig, i: PanTiltInstruction, j: PanTiltInstruction, ic: InstructionConfig)
    ensures FindInstructionConfig(SetInstructionConfig(c, i, ic), i) == ic
    ensures j != i ==> FindInstructionConfig(SetInstructionConfig(c, i, ic), j) == FindInstructionConfig(c, j)
    ensures SetInstructionConfig(c, i, ic).url == c.url
  {
  }

  /** beginUrl: the URL followed by the begin command, or "" when there is no begin command. */
  function BeginUrl(c: PanTiltConfig, i: PanTiltInstruction): (r: string)
    ensures r == "" <==> FindInstructionConfig(c, i).begin == ""
    ensures r != "" ==> r == c.url + FindInstructionConfig(c, i).begin
  {
    var ic := FindInstructionConfig(c, i);
    if |ic.begin| == 0 then "" else c.url + ic.begin
  }

  /** endUrl: the URL followed by the end command, or "" when there is no end command. */
  function EndUrl(c: PanTiltConfig, i: PanTiltInstruction): (r: string)
    ensures r == "" <==> FindInstructionConfig(c, i).end == ""
    ensures r != "" ==> r == c.url + FindInstructionConfig(c, i).end
  {
    var ic := FindInstructionConfig(c, i);
    if |ic.end| == 0 then "" else c.url + ic.end
  }

  /** durationMillis. */
  function DurationMillis(c: PanTiltConfig, i: PanTiltInstruction): int {
    FindInstructionConfig(c, i).durationMillis
  }

  /**
   * A default configuration commands nothing; a configured begin command is
   * sent to the controller's URL, and the URL can be read back from it.
   */
  lemma PanTiltUrls(c: PanTiltConfig, i: PanTiltInstruction, command: string)
    requires command != ""
    ensures BeginUrl(DefaultPanTiltConfig(), i) == "" && EndUrl(DefaultPanTiltConfig(), i) == ""
    ensures DurationMillis(DefaultPanTiltConfig(), i) == 0
    ensures var c2 := SetInstructionConfig(c, i, InstructionConfig(command, "", 0));
      BeginUrl(c2, i)[..|c.url|] == c.url && BeginUrl(c2, i)[|c.url|..] == command && EndUrl(c2, i) == ""
  {
    var c2 := SetInstructionConfig(c, i, InstructionConfig(command, "", 0));
    InstructionsHaveOwnConfigs(c, i, i, InstructionConfig(command, "", 0));
    assert BeginUrl(c2, i) == c.url + command;
  }
}
