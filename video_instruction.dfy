/** Instructions the server sends a robot's video input service. */
module VideoInstructions {

  /** Path of the robot-side service that executes the instruction. */
  const VideoInputServicePath: string := "/interbot/video/in"

  datatype Instruction = Undefined | StartStream | StopStream

  datatype VideoInstruction = VideoInstruction(instruction: Instruction, servicePath: string, channel: string)

  /** The default instruction: Undefined, empty path, empty channel. */
  function DefaultInstruction(): VideoInstruction {
    VideoInstruction(Undefined, "", "")
  }

  /** startStream: stream into the given channel. */
  function StartStreamInstruction(channel: string): VideoInstruction {
    VideoInstruction(StartStream, VideoInputServicePath, channel)
  }

  /** stopStream: stop streaming into the given channel. */
  function StopStreamInstruction(channel: string): VideoInstruction {
    VideoInstruction(StopStream, VideoInputServicePath, channel)
  }

  function InstructionName(i: Instruction): string {
    match i
    case Undefined => "Undefined"
    case StartStream => "StartStream"
    case StopStream => "StopStream"
  }

  /** setInstruction: Enum.valueOf on the names, Undefined for any other name. */
  function SetInstruction(v: VideoInstruction, name: string): (r: VideoInstruction)
    ensures r.servicePath == v.servicePath && r.channel == v.channel
    ensures InstructionName(r.instruction) == name || r.instruction == Undefined
  {
    var i := if name == "StartStream" then StartStream else if name == "StopStream" then StopStream else Undefined;
    v.(instruction := i)
  }

  /** Setting an instruction by its name gives that instruction; start and stop never coincide. */
  lemma SetInstructionByName(v: VideoInstruction, i: Instruction, channel: string)
    ensures SetInstruction(v, InstructionName(i)).instruction == i
    ensures SetInstruction(DefaultInstruction(), "Pause").instruction == Undefined
    ensures StartStreamInstruction(channel) != StopStreamInstruction(channel)
    ensures SetInstruction(StartStreamInstruction(channel), "StopStream") == StopStreamInstruction(channel)
  {
  }
}
