/**
 * The constants of the back end's configuration module: the two scraped
 * company pages, the per-company page-selection settings and the metadata
 * attached to each processed table.
 */
module Config {

  /** The exchange's company-profile page, written out by its URL components. */
  const CseProfilePage: string :=
    "https://" + "www.cse.lk" + "/pages" + "/company-profile" + "/company-profile" + ".component" + ".html"

  const DippedPlcUrl: string := CseProfilePage + "?symbol=" + "DIPD" + ".N0000"
  const RichardPlcUrl: string := CseProfilePage + "?symbol=" + "REXP" + ".N0000"

  /** One entry of COMPANY_CONFIGS, keyed by the company's symbol. */
  datatype CompanyConfig = CompanyConfig(
    symbol: string,
    inputDir: string,
    outputDir: string,
    keywordRegex: string,
    outputCsv: string)

  /** COMPANY_CONFIGS in its declaration (and so iteration) order. */
  const CompanyConfigs: seq<CompanyConfig> := [
    CompanyConfig(
      "REXP",
      "data/unprocess_data/REXP",
      "data/extracted_data/REXP",
      "consolidated\\s+income\\s+statements?",
      "data/processed_csv/rexp_processed_financial_data.csv"),
    CompanyConfig(
      "DIPD",
      "data/unprocess_data/DIPD",
      "data/extracted_data/DIPD",
      "STATEMENT OF PROFIT OR LOSS",
      "data/processed_csv/dipd_processed_financial_data.csv")
  ]

  /** One entry of FILES_METADATA: a processed CSV and the company it describes. */
  datatype FileMetadata = FileMetadata(filename: string, company: string, symbol: string)

  /** FILES_METADATA in its declaration order. */
  const FilesMetadata: seq<FileMetadata> := [
    FileMetadata("dipd_processed_financial_data.csv", "Dipped Products PLC", "DIPD"),
    FileMetadata("rexp_processed_financial_data.csv", "Richard Pieris Exports PLC", "REXP")
  ]

  const ProcessedCsvDataPath: string := "data/processed_csv/"
}
