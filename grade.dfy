/** The minimal grading of a target: HTTP/3 support, HTTP/2 support and the
    TLS version seen on the HTTP/2 connection map to a score and a letter. */
module Grade {

  datatype Grading = Grading(score: int, grade: string)

  /** The only four gradings the scanner hands out, best first. */
  const Gradings: seq<Grading> := [Grading(95, "A"), Grading(90, "B"), Grading(80, "C"), Grading(40, "F")]

  /** `computeMinimalGrade`. A TLS version string other than "TLS 1.2" and
      "TLS 1.3" (including the empty string for an unknown version) counts
      like "TLS 1.2". */
  function ComputeMinimalGrade(hasH3: bool, hasH2: bool, tlsVersion: string): (g: Grading)
    ensures g in Gradings
  {
    if hasH3 then Grading(95, "A")
    else if hasH2 then
      match tlsVersion
      case "TLS 1.3" => Grading(90, "B")
      case "TLS 1.2" => Grading(80, "C")
      case _ => Grading(80, "C")
    else Grading(40, "F")
  }

  /** The grading table, row by row: HTTP/3 wins whatever else holds; HTTP/2
      with TLS 1.3 is a B; HTTP/2 with any other TLS string is a C; neither
      is an F. */
  lemma GradeTable(hasH2: bool, tlsVersion: string)
    ensures ComputeMinimalGrade(true, hasH2, tlsVersion) == Grading(95, "A")
    ensures ComputeMinimalGrade(false, true, "TLS 1.3") == Grading(90, "B")
    ensures tlsVersion != "TLS 1.3" ==> ComputeMinimalGrade(false, true, tlsVersion) == Grading(80, "C")
    ensures ComputeMinimalGrade(false, false, tlsVersion) == Grading(40, "F")
  {
  }

  /** The letter says exactly which evidence was seen. */
  lemma GradeMeaning(hasH3: bool, hasH2: bool, tlsVersion: string)
    ensures var g := ComputeMinimalGrade(hasH3, hasH2, tlsVersion);
      (g.grade == "A" <==> hasH3)
      && (g.grade == "B" <==> !hasH3 && hasH2 && tlsVersion == "TLS 1.3")
      && (g.grade == "C" <==> !hasH3 && hasH2 && tlsVersion != "TLS 1.3")
      && (g.grade == "F" <==> !hasH3 && !hasH2)
  {
  }

  /** Score and letter determine each other. */
  lemma ScoreDeterminesGrade(h3: bool, h2: bool, tls: string, h3': bool, h2': bool, tls': string)
    ensures var g, g' := ComputeMinimalGrade(h3, h2, tls), ComputeMinimalGrade(h3', h2', tls');
      g.score == g'.score <==> g.grade == g'.grade
  {
  }

  /** Gaining HTTP/3 or HTTP/2 support never lowers the score. */
  lemma GradeMonotone(hasH3: bool, hasH2: bool, tlsVersion: string)
    ensures ComputeMinimalGrade(hasH3, hasH2, tlsVersion).score <= ComputeMinimalGrade(true, hasH2, tlsVersion).score
    ensures ComputeMinimalGrade(hasH3, hasH2, tlsVersion).score <= ComputeMinimalGrade(hasH3, true, tlsVersion).score
  {
  }
}
