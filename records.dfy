/** The two record shapes the pages read from the backend tables
    `library_items` and `questions`. The pages only hold read-only copies. */
module Records {
  /** The category-selector entry that stands for "no category filter",
      on both the library and the questions page. */
  const AllCategories: string := "All"

  function ItemCategory(item: LibraryItem): string {
    item.category
  }

  function QuestionCategory(q: Question): string {
    q.category
  }

  /** The four kinds of library item; no other kind is ever constructed. */
  datatype ItemType = Video | Audio | Article | Book

  datatype LibraryItem = LibraryItem(
    id: string,
    title: string,
    description: string,
    kind: ItemType,
    author: string,
    url: string,
    thumbnailUrl: string,
    duration: string,
    category: string,
    tags: seq<string>,
    viewCount: int,
    createdAt: string,
    updatedAt: string)

  datatype Question = Question(
    id: string,
    question: string,
    answer: string,
    category: string,
    tags: seq<string>,
    viewCount: int,
    createdAt: string,
    updatedAt: string)
}
