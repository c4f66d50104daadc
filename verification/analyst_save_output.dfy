/** The `business_analyst` package's four exporters (`save_ur_ouput`,
    `save_ac_ouput`, `save_do_ouput`, `save_uc_ouput`): a blank directory
    falls back to the session's working directory, which the caller resolves
    and passes in. */
module AnalystSaveOutput {
  import opened Wrappers
  import opened Strings
  import opened Records
  import opened Paths
  import opened Clock
  import opened StageExport

  /** Exports one stage's record. Every export error names the "UR" state,
      whichever stage failed, and a use-case export reports success as "DO". */
  function Save(stage: Stage, s: State, directory: string, workingDirectory: string,
                generatedAt: DateTime, savedAt: DateTime, writeError: Option<string>): (r: ExportResult)
    ensures r.ExportFailed? <==> HoldsText(stage, s) || writeError.Some?
    ensures HoldsText(stage, s) ==>
              r.message == "Error exporting " + "UR" + " state: " + AttributeErrorText
    ensures r.Exported? ==>
              r.outputFile == Join(if IsBlank(directory) then workingDirectory else directory,
                                   FileName(stage, savedAt))
              && BaseName(r.outputFile) == FileName(stage, savedAt)
              && r.message == "Successfully exported " + (if stage == UseCases then "DO" else Tag(stage))
                              + " state to " + r.outputFile
  {
    var chosen := ChooseDirectory(directory, workingDirectory);
    var r := Export(stage, Analyst, s, chosen, generatedAt, savedAt, writeError);
    ExportOutcome(stage, Analyst, s, chosen, generatedAt, savedAt, writeError);
    if r.Exported? then
      ExportFile(stage, Analyst, s, chosen, generatedAt, savedAt, writeError);
      r
    else r
  }
}
