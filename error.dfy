/** The variants of the Lidl client's error type (lidl/src/error.rs) that the HTML receipt parser raises. */
module LidlError {

  datatype Error =
      /** "Could not parse HTML receipt: <msg>" */
    | HtmlReceiptParse(msg: string)
      /** "Could not parse HTML receipt: cannot find attribute <attr> in element" */
    | HtmlReceiptParseMissingAttr(attr: string)
}
