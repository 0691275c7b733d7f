/** What the handlers echo to the terminal that the model keeps: the git
    warnings and the confirmation prompt. Colours and other messages are not
    modelled. */
module Console {

  /** Every warning is echoed as `f"⚠ {w}"`. */
  const WarningPrefix: string := "\U{26A0} "

  /** The line shown before waiting for Enter in `run`. */
  const PromptLine: string := "Press Enter to continue or Ctrl+C to abort"

  /** The lines echoed for `warnings`, one per warning, in order. */
  function WarningLines(warnings: seq<string>): (lines: seq<string>)
    ensures |lines| == |warnings|
    ensures forall k :: 0 <= k < |warnings| ==> lines[k] == WarningPrefix + warnings[k]
  {
    seq(|warnings|, k requires 0 <= k < |warnings| => WarningPrefix + warnings[k])
  }

  /** `for w in warnings: typer.echo(f"⚠ {w}")`: the lines echoed, in order. */
  method EchoWarnings(warnings: seq<string>) returns (lines: seq<string>)
    ensures lines == WarningLines(warnings)
  {
    lines := [];
    var i := 0;
    while i < |warnings|
      invariant 0 <= i <= |warnings|
      invariant lines == WarningLines(warnings[..i])
    {
      lines := lines + [WarningPrefix + warnings[i]];
      i := i + 1;
    }
    assert warnings[..i] == warnings;
  }
}
