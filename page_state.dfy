/** The view state the task pages keep beside their task list. */
module PageState {
  import opened Wrappers
  import opened TaskCard

  /** The current page, the task being edited (if any) and whether the form is open, the
      task being shared (if any) and whether the sharing dialog is open, and the loading
      flag. */
  datatype PageUi = PageUi(
    currentPage: int,
    editing: Option<Task>,
    formOpen: bool,
    sharing: Option<Task>,
    sharingOpen: bool,
    loading: bool)

  /** The state a page starts in: page 1, nothing open, loading. */
  const InitialUi: PageUi := PageUi(1, None, false, None, false, true)
}
