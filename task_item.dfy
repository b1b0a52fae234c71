/** The React task row (src/components/Tasks/TaskItem.jsx): its circle, its text style and its link. */
module TaskItem {
  import opened Text
  import opened PostData

  /** What a task row shows: the row's post id, the circle's border colour, the link's style and target. */
  datatype TaskView = TaskView(postId: string, circleColor: string, text: TextStyle, href: string, title: string)

  const DefaultCircleColor: string := "#ccc"

  /**
   * The row: the circle takes `circleColor` or `#ccc`, the link's font, colour, size and
   * weight fall back to `inherit`, and the link goes to the post's `url` or `#post-<id>`.
   */
  function Render(post: Post): (v: TaskView)
    ensures v.postId == post.id && v.title == post.title && v.href == Href(post)
    ensures v.circleColor != ""
    ensures Truthy(Pick(post.styles, CircleColor)) ==> v.circleColor == Pick(post.styles, CircleColor).value
    ensures !Truthy(Pick(post.styles, CircleColor)) ==> v.circleColor == DefaultCircleColor
    ensures v.text == TextStyleOf(post.styles)
  {
    TaskView(post.id, OrElse(Pick(post.styles, CircleColor), DefaultCircleColor),
             TextStyleOf(post.styles), Href(post), post.title)
  }
}
