/** The document structure the PDF library is given: a sequence of block
    elements, paragraphs and tables. Fonts, colours and sizes are left out. */
module Pdf {

  datatype Weight = Regular | Bold

  /** A table with a column count, its header cells and the body cells in
      the order they were added; the library wraps the body cells into rows
      of `columns` cells. */
  datatype Element =
    | Paragraph(text: string, weight: Weight)
    | Table(columns: nat, headerCells: seq<string>, cells: seq<string>)

  datatype PdfDocument = PdfDocument(elements: seq<Element>)
}
