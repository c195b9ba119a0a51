/** The records of app/review/schema.py that several components pass around. */
module ReviewSchema {
  import opened Wrappers

  datatype Severity = Critical | Major | Minor | Suggestion

  datatype ReviewComment = ReviewComment(
    severity: Severity, confidence: real, filePath: string, line: int,
    title: string, message: string, evidence: seq<string>, suggestedFix: Option<string>)
}
