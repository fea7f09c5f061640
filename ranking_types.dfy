/** The ranking record: a paragraph of a parsed file and its similarity to the question. */
module RankingTypes {
  import opened FileTypes

  /** An embedding vector. */
  type Vec = seq<real>

  datatype RankedParagraph = RankedParagraph(file: ParsedFile, paragraph: string, score: real)
}
