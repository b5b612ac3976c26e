/** What a controller answers: a rendered view with its list of validation errors, or a
    redirect carrying at most one flashed message. */
module Outcomes {
  import opened Wrappers

  datatype FlashKind = SuccessMsg | ErrorMsg

  datatype Flash = Flash(kind: FlashKind, msg: string)

  datatype Outcome =
    | Render(view: string, errors: seq<string>)
    | Redirect(path: string, flash: Option<Flash>)

  const LoginPath := "/auth/login"
  const RegisterPath := "/auth/register"
  const ForgotPath := "/auth/forgot"

  /** `/auth/reset/${id}`. */
  function ResetPath(id: string): (p: string)
    ensures p != LoginPath && p != RegisterPath && p != ForgotPath
  {
    var p := "/auth/reset/" + id;
    assert p[6] == 'r' && LoginPath[6] == 'l' && ForgotPath[6] == 'f';
    assert |RegisterPath| == 14 && p[7] == 'e' && p[8] == 's' && RegisterPath[8] == 'g';
    p
  }

  /** Redirect with a flashed error (`req.flash('error_msg', msg)`). */
  function Fail(path: string, msg: string): Outcome {
    Redirect(path, Some(Flash(ErrorMsg, msg)))
  }

  /** Redirect with a flashed success (`req.flash('success_msg', msg)`). */
  function Done(path: string, msg: string): Outcome {
    Redirect(path, Some(Flash(SuccessMsg, msg)))
  }
}
