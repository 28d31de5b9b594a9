/** The application's error value (src/utils/AppError.ts): a message, an
    HTTP status code, a `status` word derived from the code, and the
    operational flag. Every service-layer failure in the model is one. */
module AppErrors {
  import opened Text

  datatype AppError = AppError(message: string, statusCode: int, status: string, isOperational: bool)

  /** `${statusCode}` begins with the digit four. */
  predicate RendersWithFour(statusCode: int) {
    StartsWith(IntToDecimal(statusCode), "4")
  }

  /** `new AppError(message, statusCode)`: message and code are kept as
      given, the status is "fail" for a code whose decimal form begins with
      4 and "error" otherwise, and the error is always operational. */
  function NewAppError(message: string, statusCode: int): (e: AppError)
    ensures e.message == message && e.statusCode == statusCode
    ensures e.status == "fail" <==> RendersWithFour(statusCode)
    ensures e.status == "fail" || e.status == "error"
    ensures e.isOperational
  {
    AppError(message, statusCode, if RendersWithFour(statusCode) then "fail" else "error", true)
  }

  /** The status is "fail" exactly for the non-negative codes whose leading
      digit is 4, i.e. those in [4 * 10^k, 5 * 10^k) for some k; negative
      codes render with a minus sign first and get "error". */
  lemma StatusFailIffLeadingFour(message: string, statusCode: int)
    ensures NewAppError(message, statusCode).status == "fail"
      <==> statusCode >= 0 && exists k: nat :: 4 * Pow10(k) <= statusCode < 5 * Pow10(k)
  {
    if statusCode >= 0 {
      NatToDecimalLeading(statusCode);
      LeadingDigitRange(statusCode, 4);
      assert RendersWithFour(statusCode) <==> LeadingDigit(statusCode) == 4;
    } else {
      assert IntToDecimal(statusCode)[0] == '-';
    }
  }

  /** For three-digit HTTP codes: 4xx is "fail", everything else "error". */
  lemma StatusOfHttpCode(message: string, statusCode: int)
    requires 100 <= statusCode <= 999
    ensures NewAppError(message, statusCode).status == (if 400 <= statusCode < 500 then "fail" else "error")
  {
    StatusFailIffLeadingFour(message, statusCode);
    assert Pow10(2) == 100;
    if 400 <= statusCode < 500 {
      assert 4 * Pow10(2) <= statusCode < 5 * Pow10(2);
    } else {
      forall k: nat | 4 * Pow10(k) <= statusCode < 5 * Pow10(k) ensures false {
        PowerCases(k);
      }
    }
  }

  lemma PowerCases(k: nat)
    ensures k == 0 ==> Pow10(k) == 1
    ensures k == 1 ==> Pow10(k) == 10
    ensures k == 2 ==> Pow10(k) == 100
    ensures k >= 3 ==> Pow10(k) >= 1000
  {
    if k >= 3 {
      var j := k - 1;
      MonotonePow10(j);
    }
  }

  lemma {:induction false} MonotonePow10(j: nat)
    requires j >= 2
    ensures Pow10(j) >= 100
  {
    if j > 2 {
      MonotonePow10(j - 1);
    }
  }

  /** The codes the core raises: 400, 401 and 404 fail, 500 errors. */
  lemma StatusOfCoreCodes(message: string)
    ensures NewAppError(message, 400).status == "fail"
    ensures NewAppError(message, 401).status == "fail"
    ensures NewAppError(message, 404).status == "fail"
    ensures NewAppError(message, 500).status == "error"
  {
    StatusOfHttpCode(message, 400);
    StatusOfHttpCode(message, 401);
    StatusOfHttpCode(message, 404);
    StatusOfHttpCode(message, 500);
  }
}
