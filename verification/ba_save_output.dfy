/** The `BA` package's four exporters (`save_ur_output`, `save_ac_output`,
    `save_do_output`, `save_uc_output`): a blank output path falls back to a
    fixed directory. */
module BaSaveOutput {
  import opened Wrappers
  import opened Strings
  import opened Records
  import opened Paths
  import opened Clock
  import opened StageExport

  const DefaultOutputDirectory: string := "assets/output/agent"

  /** Exports one stage's record. Fails exactly when the stage's key holds
      non-empty text (naming the stage) or the write fails; otherwise the
      file lands in the requested directory, or the default one when the
      request is blank, under the stage's stamped name. */
  function Save(stage: Stage, s: State, outputPath: string,
                generatedAt: DateTime, savedAt: DateTime, writeError: Option<string>): (r: ExportResult)
    ensures r.ExportFailed? <==> HoldsText(stage, s) || writeError.Some?
    ensures HoldsText(stage, s) ==>
              r.message == "Error exporting " + Tag(stage) + " state: " + AttributeErrorText
    ensures r.Exported? ==>
              r.outputFile == Join(if IsBlank(outputPath) then DefaultOutputDirectory else outputPath,
                                   FileName(stage, savedAt))
              && BaseName(r.outputFile) == FileName(stage, savedAt)
              && r.message == "Successfully exported " + Tag(stage) + " state to " + r.outputFile
  {
    var directory := ChooseDirectory(outputPath, DefaultOutputDirectory);
    var r := Export(stage, Ba, s, directory, generatedAt, savedAt, writeError);
    ExportOutcome(stage, Ba, s, directory, generatedAt, savedAt, writeError);
    if r.Exported? then
      ExportFile(stage, Ba, s, directory, generatedAt, savedAt, writeError);
      r
    else r
  }
}
