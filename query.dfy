/** The filter record the calendar keeps in its state and sends as the query
    string of `GET /api/events`. An empty string stands for a filter that is
    not set (the server tests each field for truthiness). */
module Query {

  datatype Filters = Filters(category: string, location: string, startDate: string, endDate: string, search: string)

  /** The initial state of the calendar filters, and what "Clear All" yields. */
  const NoFilters: Filters := Filters("", "", "", "", "")
}
