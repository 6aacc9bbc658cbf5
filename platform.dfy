/**
 * What the plugin sees of the host platform in one request. The host's
 * text functions are not modelled; they are given as opaque functions.
 */
module Platform {
  import opened Wrappers

  /** A post; only its raw body matters for the read time. */
  datatype Post = Post(content: string)

  datatype Host = Host(
    isAdmin: bool,                    // is_admin()
    singularPost: bool,               // is_singular('post')
    current: Option<Post>,            // get_post() with no argument: the post of the loop, if any
    posts: map<int, Post>,            // get_post($id)
    wordCount: string -> nat,         // str_word_count of the tag-stripped, punctuation-blanked body
    sanitizeText: string -> string,   // sanitize_text_field
    escHtml: string -> string,        // esc_html
    ksesPost: string -> string,       // wp_kses_post
    unslash: string -> string         // wp_unslash
  )

  /**
   * `$post_id ? get_post($post_id) : get_post()`: a missing or zero id asks
   * for the current post; any other id is looked up, and an unknown id
   * gives no post.
   */
  function GetPost(host: Host, postId: Option<int>): (p: Option<Post>)
    ensures (postId == None || postId == Some(0)) ==> p == host.current
    ensures postId.Some? && postId.value != 0 ==>
              (p.Some? <==> postId.value in host.posts) &&
              (p.Some? ==> p.value == host.posts[postId.value])
  {
    match postId
    case None => host.current
    case Some(id) =>
      if id == 0 then host.current
      else if id in host.posts then Some(host.posts[id])
      else None
  }
}
