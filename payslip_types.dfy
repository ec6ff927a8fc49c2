/** The payslip records and the sort order of the app. */
module PayslipTypes {

  /** The kind of document behind a payslip. */
  datatype FileType = Pdf | Image

  /** The document: its kind and an opaque locator the file service resolves. */
  datatype PayslipFile = PayslipFile(kind: FileType, uri: string)

  /** One payslip: an identifier, the covered period as two ISO date strings, and its document. */
  datatype Payslip = Payslip(id: string, fromDate: string, toDate: string, file: PayslipFile)

  /** `newest` puts later `fromDate`s first, `oldest` earlier ones. */
  datatype SortOrder = Newest | Oldest
}
