/**
 * The new-post form action of the posts page: it builds an error dictionary
 * field by field, answers 400 with it when any error is set, and otherwise
 * issues one create request and redirects to "/".
 *
 * The body check is modelled as written: it tests the body's type but the
 * title's emptiness, so an empty body under a non-empty title is accepted.
 */
module PostsRoute {

  /** A submitted form value: a string, or an uploaded file. */
  datatype FormEntry = Text(text: string) | Upload

  /** The submitted form; an absent key is `null`. */
  type ActionForm = map<string, FormEntry>

  /** The create request sent to the posts service. */
  datatype NewPost = NewPost(title: string, body: string, userId: int)

  datatype Response = BadRequest(status: int, errors: map<string, string>) | Redirect(location: string)

  const TitleRequired := "title is required"
  const BodyRequired := "body is required"
  const AuthorUserId := 1

  /** `typeof form.get(key) === "string"`. */
  predicate IsString(form: ActionForm, key: string)
  {
    key in form && form[key].Text?
  }

  /** `!form.get(key)`: absent, or the empty string (a file is truthy). */
  predicate Falsy(form: ActionForm, key: string)
  {
    key !in form || form[key] == Text("")
  }

  /** The title check: not a string, or empty. */
  predicate TitleRejected(form: ActionForm)
  {
    !IsString(form, "title") || Falsy(form, "title")
  }

  /** The body check as written: the body is not a string, or the title is empty. */
  predicate BodyRejected(form: ActionForm)
  {
    !IsString(form, "body") || Falsy(form, "title")
  }

  /**
   * The action. `created` lists the create requests it issues, in order.
   */
  method Action(form: ActionForm) returns (response: Response, created: seq<NewPost>)
    ensures response.BadRequest? <==> TitleRejected(form) || BodyRejected(form)
    ensures response.BadRequest? ==>
      && response.status == 400
      && response.errors.Keys <= {"title", "body"}
      && ("title" in response.errors <==> TitleRejected(form))
      && ("body" in response.errors <==> BodyRejected(form))
      && ("title" in response.errors ==> response.errors["title"] == TitleRequired)
      && ("body" in response.errors ==> response.errors["body"] == BodyRequired)
      && created == []
    ensures response.Redirect? ==>
      && response.location == "/"
      && IsString(form, "title") && IsString(form, "body")
      && form["title"].text != ""
      && created == [NewPost(form["title"].text, form["body"].text, AuthorUserId)]
  {
    var errors: map<string, string> := map[];
    if !IsString(form, "title") || Falsy(form, "title") {
      errors := errors["title" := TitleRequired];
    }
    if !IsString(form, "body") || Falsy(form, "title") {
      errors := errors["body" := BodyRequired];
    }
    if |errors| > 0 {
      return BadRequest(400, errors), [];
    }
    created := [NewPost(form["title"].text, form["body"].text, AuthorUserId)];
    response := Redirect("/");
  }

  /** A missing title sets both errors: there is no early exit between the checks. */
  lemma MissingTitleRejectsBoth(form: ActionForm)
    requires "title" !in form
    ensures TitleRejected(form) && BodyRejected(form)
  {
  }

  /** An empty body passes under a non-empty title. */
  lemma EmptyBodyAccepted(title: string)
    requires title != ""
    ensures var form := map["title" := Text(title), "body" := Text("")];
      !TitleRejected(form) && !BodyRejected(form)
  {
  }
}
