/**
 * The command-assembly step of the Wowza interlaced converter: from the
 * values its form collects, build the input SRT URL, the output SRT URL,
 * the video/audio flag block and the final transcoder command line.
 *
 * Every user-entered string is interpolated verbatim (no URL or shell
 * escaping); every number is rendered as Python renders an `int`.
 */
module Converter {
  import opened Decimal
  import opened Text

  /** The YADIF mode offered by the form's selector: 0 keeps, 1 doubles the frame rate. */
  type YadifMode = m: int | 0 <= m <= 1

  /**
   * The form's values. Fields gated by a checkbox are carried whatever the
   * checkbox says; the builders only read them when it is ticked.
   */
  datatype Form = Form(
    inputHost: string,
    inputPort: string,
    addLatency: bool,
    latencyMs: int,
    addPassphrase: bool,
    passphrase: string,
    shouldConvert: bool,
    isInterlaced: bool,
    yadifMode: YadifMode,
    audioCodec: string,
    audioBitrate: string,
    wowzaServer: int,
    wowzaPort: int,
    outputTimeout: int)

  /** The values the form starts with. */
  const DefaultForm := Form("54.156.246.82", "37301", true, 400, true, "ch301_wsc_y84fmq1",
                            true, true, 1, "aac", "192k", 21, 10011, 10000000)

  const InputQuery := "?fc=5000000" + "&rcvbuf=100000000" + "&timeout=10000000"
  const LatencyKey := "&latency="
  const PassphraseKey := "&passphrase="

  const OutputHostHead := "srt://wsc-wowza"
  const OutputHostTail := "-prod-wowza-eus2" + ".eastus2.cloudapp.azure.com" + ":"
  const OutputQuery := "?timeout="

  const YadifFlag := " -vf yadif=mode="
  const EncoderBlock := " -vcodec h264_nvenc" + " -s 1920x1080" + " -rc:v vbr" + " -cq:v 20" + " -pix_fmt yuv420p" + " -f mpegts"
  const AudioCodecFlag := " -acodec "
  const AudioBitrateFlag := " -b:a "
  const MappingBlock := " -map v:0" + " -map a:0?"
  const StreamIdBlock := " -streamid 0:0x100" + " -streamid 1:0x101"

  const CommandPrefix := "ffmpegcommand:" + " -timeout 20000000" + " -rw_timeout 20000000" + " -i "

  // ---------------------------------------------------------------------
  // Input SRT URL
  // ---------------------------------------------------------------------

  /** The fixed part of the input URL, written whatever the checkboxes say. */
  function InputBase(host: string, port: string): string {
    "srt://" + host + ":" + port + InputQuery
  }

  function LatencyParam(f: Form): string {
    if f.addLatency then LatencyKey + IntToDecimal(f.latencyMs) else ""
  }

  function PassphraseParam(f: Form): string {
    if f.addPassphrase then PassphraseKey + f.passphrase else ""
  }

  /** The input URL: the fixed base, then latency, then passphrase, each only when ticked. */
  function InputUrl(f: Form): string {
    InputBase(f.inputHost, f.inputPort) + LatencyParam(f) + PassphraseParam(f)
  }

  /** The input URL built as the script builds it, by appending to a local string. */
  method BuildInputUrl(f: Form) returns (srtInput: string)
    ensures srtInput == InputUrl(f)
  {
    srtInput := "srt://" + f.inputHost + ":" + f.inputPort + InputQuery;
    if f.addLatency {
      srtInput := srtInput + (LatencyKey + IntToDecimal(f.latencyMs));
    }
    if f.addPassphrase {
      srtInput := srtInput + (PassphraseKey + f.passphrase);
    }
  }

  // ---------------------------------------------------------------------
  // Output SRT URL
  // ---------------------------------------------------------------------

  /**
   * The output URL: server number, port and timeout substituted into the
   * ingest host template. The server number names the host, the timeout
   * closes the URL, and no space occurs in it, so it is one command-line word.
   */
  function OutputUrl(server: int, port: int, timeout: int): (u: string)
    ensures StartsWith(u, OutputHostHead + IntToDecimal(server) + OutputHostTail)
    ensures EndsWith(u, OutputQuery + IntToDecimal(timeout))
    ensures ' ' !in u
  {
    var host := OutputHostHead + IntToDecimal(server) + OutputHostTail;
    ThreeParts(host, IntToDecimal(port), OutputQuery);
    StartsWithExtended(host + IntToDecimal(port) + OutputQuery, host, IntToDecimal(timeout));
    ThreeParts(host + IntToDecimal(port), OutputQuery, IntToDecimal(timeout));
    OutputTemplateLacksSpace();
    OutputHostHead + IntToDecimal(server) + OutputHostTail + IntToDecimal(port) + OutputQuery + IntToDecimal(timeout)
  }

  lemma OutputTemplateLacksSpace()
    ensures ' ' !in OutputHostHead && ' ' !in OutputHostTail && ' ' !in OutputQuery
  {
  }

  // ---------------------------------------------------------------------
  // Video/audio flags
  // ---------------------------------------------------------------------

  function YadifSegment(f: Form): string {
    if f.isInterlaced then YadifFlag + IntToDecimal(f.yadifMode) else ""
  }

  function AudioBlock(f: Form): string {
    AudioCodecFlag + f.audioCodec + AudioBitrateFlag + f.audioBitrate
  }

  /** The flag block: empty when the stream is copied, otherwise filter, encoder, audio and mapping. */
  function VideoFlags(f: Form): string {
    if !f.shouldConvert then ""
    else YadifSegment(f) + EncoderBlock + AudioBlock(f) + MappingBlock + StreamIdBlock
  }

  /** The flag block built as the script builds it, by appending to a local string. */
  method BuildVideoFlags(f: Form) returns (videoFlags: string)
    ensures videoFlags == VideoFlags(f)
  {
    videoFlags := "";
    if f.shouldConvert {
      if f.isInterlaced {
        videoFlags := videoFlags + (YadifFlag + IntToDecimal(f.yadifMode));
      }
      assert videoFlags == YadifSegment(f);
      videoFlags := videoFlags + EncoderBlock;
      videoFlags := videoFlags + (AudioCodecFlag + f.audioCodec + AudioBitrateFlag + f.audioBitrate);
      assert videoFlags == YadifSegment(f) + EncoderBlock + AudioBlock(f);
      videoFlags := videoFlags + MappingBlock;
      videoFlags := videoFlags + StreamIdBlock;
    }
  }

  // ---------------------------------------------------------------------
  // Final command
  // ---------------------------------------------------------------------

  function FinalCommand(f: Form): string {
    CommandPrefix + InputUrl(f) + VideoFlags(f) + " " + OutputUrl(f.wowzaServer, f.wowzaPort, f.outputTimeout)
  }

  /** The whole assembly step, in the script's order. */
  method GenerateCommand(f: Form) returns (finalCmd: string)
    ensures finalCmd == FinalCommand(f)
  {
    var srtInput := BuildInputUrl(f);
    var outputUrl := OutputUrl(f.wowzaServer, f.wowzaPort, f.outputTimeout);
    var videoFlags := BuildVideoFlags(f);
    finalCmd := CommandPrefix + srtInput + videoFlags + " " + outputUrl;
  }
}
