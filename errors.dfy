/** The ways building a statement from its page texts can fail. */
module Errors {

  datatype ParseError =
    | NoPages          // `self.pages[0]` on a document without pages
    | NotAStatement    // the first page lacks the statement marker line
    | NoEmissionDate   // `re.search(...)` found no issue date, so `.group` fails
    | BadEmissionDate  // `strptime` rejected the captured issue date
    | NoHeaders        // `findall(...)[0]` on an empty list of header blocks
    | NoAccounts       // `idxmin(axis=1)` over a match table without any account column
}
