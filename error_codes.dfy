/**
 * The response codes of pkg/gzerror/err_code.go and their default
 * messages: 2xx/4xx/5xx for generic outcomes, 1xxx for system checks,
 * 2xxx for users and their actions.
 */
module ErrorCodes {

  const OK := 200
  const Error := 400
  const ServerError := 500
  const ParameterIllegal := 1002
  const NoAuth := 1003
  const NotData := 1004
  const HasData := 1005
  const UnauthorizedToken := 1006
  const NeedLogin := 1007
  const RequestLimit := 1008
  const CaptchaGenerateError := 1009
  const CaptchaError := 1010
  const LoginFail := 2000
  const LoginPasswordError := 2001
  const LoginNoUser := 2002
  const LoginBan := 2003
  const ThirdLoginError := 2004
  const UserIsset := 2005

  /** Every defined code, in declaration order. */
  const Codes: seq<int> := [
    OK, Error, ServerError, ParameterIllegal, NoAuth, NotData, HasData, UnauthorizedToken, NeedLogin,
    RequestLimit, CaptchaGenerateError, CaptchaError, LoginFail, LoginPasswordError, LoginNoUser,
    LoginBan, ThirdLoginError, UserIsset]

  /** The message of a code missing from the table. */
  const Fallback := "系统错误!"

  /** `codeMap` */
  const CodeMap: map<int, string> := map[
    OK := "Success",
    Error := "请求错误",
    ServerError := "系统错误",
    ParameterIllegal := "参数不合法",
    NoAuth := "权限不足",
    NotData := "没有数据",
    HasData := "数据已存在",
    UnauthorizedToken := "非法的用户token",
    NeedLogin := "请先登录",
    RequestLimit := "请求频繁,请稍后再试",
    CaptchaGenerateError := "验证码生成错误",
    CaptchaError := "验证码错误",
    LoginFail := "登录失败",
    LoginPasswordError := "密码错误",
    LoginNoUser := "该用户不存在",
    LoginBan := "你暂时不能进行登录操作",
    ThirdLoginError := "第三方登录失败",
    UserIsset := "用户已存在"]

  /**
   * `GetErrorMessage(code, message...)`: the first explicit message if
   * any, else the table's text for `code`, else the fallback.
   */
  function GetErrorMessage(code: int, message: seq<string>): (r: string)
    ensures |message| > 0 ==> r == message[0]
    ensures |message| == 0 ==> r == if code in Codes then CodeMap[code] else Fallback
  {
    CodesAreTheTable();
    if |message| > 0 then message[0]
    else if code in CodeMap then CodeMap[code]
    else Fallback
  }

  /** The table holds exactly the defined codes. */
  lemma CodesAreTheTable()
    ensures forall c :: c in CodeMap <==> c in Codes
  {
  }

  /** The eighteen codes are pairwise distinct, so none shadows another in the table. */
  lemma CodesDistinct()
    ensures |Codes| == 18
    ensures forall i, j | 0 <= i < j < |Codes| :: Codes[i] != Codes[j]
  {
  }

  /** Without an explicit message the result is never empty, and an unknown code is told apart from code 500. */
  lemma DefaultMessageNonEmpty(code: int)
    ensures GetErrorMessage(code, []) != ""
    ensures code !in Codes ==> GetErrorMessage(code, []) != GetErrorMessage(ServerError, [])
  {
    assert forall c | c in CodeMap :: CodeMap[c] != "";
    assert Fallback != CodeMap[ServerError] by {
      assert |Fallback| == 5 && |CodeMap[ServerError]| == 4;
    }
  }
}
