/** The hosted store as the client sees it: the rows it returns, the replies it gives, and
    the writes the client sends. The store itself is not modelled; a handler receives the
    store's reply as a parameter and records the write it sends. */
module Store {
  import opened Wrappers

  /** A row of the `tasks` table. Priority and status are the raw strings stored. */
  datatype TaskRow = TaskRow(
    id: string,
    title: string,
    description: Option<string>,
    dueDate: int,
    priority: string,
    status: string,
    userId: string,
    createdAt: int,
    updatedAt: int)

  /** A row of `task_shares` joined with the task it shares. */
  datatype ShareRow = ShareRow(task: TaskRow, permission: string)

  /** The reply to a write: success, or an error object. */
  datatype Reply = Ok | Err

  /** The reply to a read: the rows, or an error object. */
  datatype ReadReply<T> = Rows(value: T) | ReadErr

  /** A write the client sends to the store. `at` is the client's clock when it sends it. */
  datatype Write =
    | UpdateStatus(taskId: string, status: string, at: int)
    | UpdateTask(taskId: string, title: string, description: string, dueDate: int,
                 priority: string, status: string, at: int)
    | InsertTask(title: string, description: string, dueDate: int, priority: string,
                 status: string, owner: Option<string>)
    | DeleteTask(taskId: string)
    | InsertShare(taskId: string, sharedWith: string, sharedBy: Option<string>, permission: string)
    | DeleteShare(shareId: string)
    | MarkRead(notificationId: string)
    | MarkAllRead(userId: Option<string>)
    | UpdateInvitation(invitationId: string, status: string, at: int)
    | UpdateProfile(userId: Option<string>, fullName: string, at: int)

  /** How a page handler ended, in the terms its toast reports. */
  datatype Outcome =
    | Ignored   // an early return with no message
    | Denied    // "Access Denied"
    | Failed    // the store replied with an error
    | Done      // the change was made
    | Informed  // an informational message only
}
