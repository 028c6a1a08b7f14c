/** The few parts of the library store the backup runner reads or writes. */
module DataLayer {
  import opened Wrappers

  /** A book's liberation status; the runner only ever writes Error. */
  datatype LiberatedStatus = NotLiberated | Liberated | Error

  /** Author and narrator names may be null in the store (None). */
  datatype Book = Book(
    audibleProductId: string,
    title: string,
    authorNames: Option<string>,
    narratorNames: Option<string>)

  datatype LibraryBook = LibraryBook(book: Book)
}
