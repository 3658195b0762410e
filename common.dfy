/** Identifiers, the optional-value and reply types shared by the backend
    routes and the client components, and the post record they read. */
module Common {

  /** MongoDB ObjectIds and Socket.IO socket ids, kept as their string form;
      an absent id is written "". */
  type UserId = string
  type RoomId = string
  type PostId = string
  type CommentId = string
  type SocketId = string

  datatype Option<T> = None | Some(value: T)

  /** An Express handler's answer: the JSON body of a 200 reply, or an error
      status with the `message` field of its JSON body. */
  datatype Reply<T> = Ok(value: T) | Fail(status: nat, message: string)

  /** The fields of a post document that the forum client and the user
      routes read (the Post model itself is not part of this model). */
  datatype Post = Post(
    id: PostId,
    title: string,
    content: string,
    category: string,
    createdAt: int,
    likes: seq<UserId>,
    comments: seq<CommentId>)
}
